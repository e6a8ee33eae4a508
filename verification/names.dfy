/** How a classification name is sorted: the two fixed name tables, the
    invariant lowercase function, substring search and the fallback rule
    that the last loop of a pass applies to every other classification. */
module Names {

  /** What a pass does with one classification. Skip: its lowercased name is
      in a table, so the table loops own it; Leave: it matches nothing. */
  datatype Action = Skip | Italicize | Fade | Leave

  /** Names of the classifications that are always italicized. */
  const CommentTypes: seq<string> := ["comment", "xml doc comment", "vb xml doc comment"]
  /** Names of the classifications that are always faded. */
  const DocTagTypes: seq<string> := ["xml doc tag", "vb xml doc tag"]
  /** The classification whose em-size is the baseline. */
  const TextName: string := "text"
  const CommentMarker: string := "comment"
  const DocTagMarker: string := "doc tag"

  predicate IsUpper(c: char) {
    'A' <= c <= 'Z'
  }

  /** Invariant-culture lowercasing, restricted to ASCII letters. */
  function LowerChar(c: char): (r: char)
    ensures !IsUpper(r)
    ensures !IsUpper(c) ==> r == c
    ensures IsUpper(c) ==> 'a' <= r <= 'z' && r as int - 'a' as int == c as int - 'A' as int
  {
    if IsUpper(c) then (c as int + 32) as char else c
  }

  /** Lowercases every character, keeping the length. */
  function Lower(s: string): (r: string)
    ensures |r| == |s|
    ensures forall i :: 0 <= i < |s| ==> r[i] == LowerChar(s[i])
    ensures forall i :: 0 <= i < |s| && !IsUpper(s[i]) ==> r[i] == s[i]
    ensures forall i :: 0 <= i < |r| ==> !IsUpper(r[i])
  {
    seq(|s|, i requires 0 <= i < |s| => LowerChar(s[i]))
  }

  predicate IsLowercase(s: string) {
    forall i :: 0 <= i < |s| ==> !IsUpper(s[i])
  }

  /** Lowercasing is a projection: it yields a lowercase string, fixes every
      lowercase string, and so applying it twice is applying it once. */
  lemma LowerProjects(s: string)
    ensures IsLowercase(Lower(s))
    ensures IsLowercase(s) ==> Lower(s) == s
    ensures Lower(Lower(s)) == Lower(s)
  {
    if IsLowercase(s) {
      assert forall i :: 0 <= i < |s| ==> Lower(s)[i] == s[i];
    }
    assert forall i :: 0 <= i < |s| ==> Lower(Lower(s))[i] == Lower(s)[i];
  }

  /** Lower(s) is t when t is s lowercased character by character. */
  lemma LowerMatches(s: string, t: string)
    requires |s| == |t|
    requires forall i :: 0 <= i < |s| ==> LowerChar(s[i]) == t[i]
    ensures Lower(s) == t
  {
    assert forall i :: 0 <= i < |s| ==> Lower(s)[i] == t[i];
  }

  /** t occurs in s starting at index i. */
  predicate OccursAt(s: string, t: string, i: int) {
    0 <= i && i + |t| <= |s| && s[i..i + |t|] == t
  }

  lemma OccursShift(s: string, t: string, i: int)
    requires |s| > 0 && 0 <= i
    ensures OccursAt(s[1..], t, i) <==> OccursAt(s, t, i + 1)
  {
    if 0 <= i && i + |t| <= |s| - 1 {
      assert s[1..][i..i + |t|] == s[i + 1..i + 1 + |t|];
    }
  }

  /** Ordinal substring search: true exactly when t occurs somewhere in s. */
  function Contains(s: string, t: string): (r: bool)
    ensures r <==> exists i :: OccursAt(s, t, i)
    decreases |s|
  {
    if |t| > |s| then
      false
    else if s[..|t|] == t then
      assert OccursAt(s, t, 0);
      true
    else
      assert forall i :: OccursAt(s[1..], t, i) ==> OccursAt(s, t, i + 1) by {
        forall i | OccursAt(s[1..], t, i) { OccursShift(s, t, i); }
      }
      assert !OccursAt(s, t, 0);
      assert forall i :: OccursAt(s, t, i) ==> OccursAt(s[1..], t, i - 1) by {
        forall i | OccursAt(s, t, i) { OccursShift(s, t, i - 1); }
      }
      Contains(s[1..], t)
  }

  /** Whether a name is one of the table names. */
  predicate Listed(name: string) {
    name in CommentTypes || name in DocTagTypes
  }

  /** The fallback rule for a classification taken from the priority order:
      it skips exactly the names whose lowercase form is a table name, and
      it italicizes or fades only a name in which that action's marker
      occurs. */
  function FallbackAction(name: string): (r: Action)
    ensures r == Skip <==> Listed(Lower(name))
    ensures r == Italicize ==> Contains(Lower(name), CommentMarker)
    ensures r == Fade ==> Contains(Lower(name), DocTagMarker) && !Contains(Lower(name), CommentMarker)
  {
    var lower := Lower(name);
    if Listed(lower) then Skip
    else if Contains(lower, CommentMarker) then Italicize
    else if Contains(lower, DocTagMarker) then Fade
    else Leave
  }

  /** The table names are already lowercase, so the fallback rule skips each
      of them: no table name is handled by both a table loop and the
      fallback loop. */
  lemma ListedNamesSkipped(name: string)
    requires Listed(name)
    ensures Lower(name) == name
    ensures FallbackAction(name) == Skip
  {
    assert IsLowercase(name);
    assert forall i :: 0 <= i < |name| ==> Lower(name)[i] == name[i];
  }

  /** The fallback rule looks only at the lowercased name. */
  lemma FallbackCaseInsensitive(name: string)
    ensures FallbackAction(Lower(name)) == FallbackAction(name)
  {
    LowerProjects(name);
  }

  /** The fallback rule stated through occurrences of the two markers: a
      name in neither table is italicized when "comment" occurs in it
      (whether or not "doc tag" does too), faded when only "doc tag" occurs,
      and left alone otherwise. */
  lemma FallbackDispatch(name: string)
    ensures FallbackAction(name) == Skip <==> Listed(Lower(name))
    ensures FallbackAction(name) == Italicize <==>
      !Listed(Lower(name)) && exists i :: OccursAt(Lower(name), CommentMarker, i)
    ensures FallbackAction(name) == Fade <==>
      !Listed(Lower(name)) && (forall i :: !OccursAt(Lower(name), CommentMarker, i)) &&
      exists i :: OccursAt(Lower(name), DocTagMarker, i)
    ensures FallbackAction(name) == Leave <==>
      !Listed(Lower(name)) && (forall i :: !OccursAt(Lower(name), CommentMarker, i)) &&
      (forall i :: !OccursAt(Lower(name), DocTagMarker, i))
  {
  }

  /** A language-specific comment variant is italicized by the fallback rule. */
  lemma FallbackItalicizesCommentVariant(name: string)
    requires name == "Consolas Comment Extra"
    ensures FallbackAction(name) == Italicize
  {
    var lower := "consolas comment extra";
    LowerMatches(name, lower);
    assert OccursAt(lower, CommentMarker, 9);
  }

  /** A table name spelled with capitals lowercases to the table name and is
      skipped by the fallback rule. */
  lemma FallbackSkipsCapitalizedTableName(name: string)
    requires name == "XML Doc Comment"
    ensures Lower(name) == "xml doc comment"
    ensures FallbackAction(name) == Skip
  {
    LowerMatches(name, "xml doc comment");
  }

  /** A doc-tag variant without "comment" in it is faded by the fallback rule. */
  lemma FallbackFadesDocTagVariant(name: string)
    requires name == "Doc Tag"
    ensures FallbackAction(name) == Fade
  {
    LowerMatches(name, DocTagMarker);
    assert OccursAt(DocTagMarker, DocTagMarker, 0);
  }

  /** Any name outside the tables that contains both markers is italicized,
      not faded. */
  lemma FallbackPrefersComment(name: string)
    requires !Listed(Lower(name))
    requires Contains(Lower(name), CommentMarker) && Contains(Lower(name), DocTagMarker)
    ensures FallbackAction(name) == Italicize
  {
  }

  /** "doc tag comment" is an instance of FallbackPrefersComment. */
  lemma FallbackPrefersCommentExample(name: string)
    requires name == "doc tag comment"
    ensures FallbackAction(name) == Italicize
  {
    LowerMatches(name, name);
    assert OccursAt(name, CommentMarker, 8);
    assert OccursAt(name, DocTagMarker, 0);
    FallbackPrefersComment(name);
  }

  /** The baseline classification's name is lowercase, outside the tables
      and left alone by the fallback rule. */
  lemma TextNameUnstyled(name: string)
    requires name == TextName
    ensures Lower(name) == name && !Listed(name)
    ensures FallbackAction(name) == Leave
  {
    LowerMatches(name, name);
    assert !Contains(name, CommentMarker) && !Contains(name, DocTagMarker);
  }

  /** An unrelated name is left alone. */
  lemma FallbackLeavesUnrelated(name: string)
    requires name == "foo"
    ensures FallbackAction(name) == Leave
  {
  }
}
