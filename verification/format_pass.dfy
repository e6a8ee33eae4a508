/** The value-level specification of one restyling pass over a format map.
    A pass is a fixed list of targets (action, classification), worked off
    in order by guarded read-modify-write steps; the list depends only on
    the type registry and the map's priority order, never on the styles. */
module FormatPass {
  import opened Wrappers
  import opened Styles
  import opened Names

  /** A format map's contents: the entries set so far and the properties
      reported for any classification without an entry. */
  datatype Formats = Formats(entries: map<string, TextProps>, defaults: TextProps) {
    function Get(c: string): TextProps {
      if c in entries then entries[c] else defaults
    }
    /** The baseline size: the em-size of the "text" classification. */
    function TextEmSize(): real {
      Get(TextName).emSize
    }
    function Put(c: string, p: TextProps): Formats {
      this.(entries := entries[c := p])
    }
  }

  datatype Target = Target(action: Action, name: string)

  /** The classification type registry.  Its lookup ignores case, so it is
      keyed by lowercased name; each key maps to the name of the registered
      type, whose own spelling may use other capitalisation. */
  type Registry = r: map<string, string> | forall k :: k in r ==> Lower(r[k]) == k
    witness map[]

  /** The registry's lookup: the type registered under a name, compared
      without regard to case. */
  function GetClassificationType(registry: Registry, name: string): (r: Option<string>)
    ensures r.Some? <==> Lower(name) in registry
    ensures r.Some? ==> Lower(r.value) == Lower(name)
    ensures r.Some? ==> RegisteredAs(registry, r.value)
  {
    if Lower(name) in registry then Some(registry[Lower(name)]) else None
  }

  /** c is the very type the registry returns for its own name. */
  predicate RegisteredAs(registry: Registry, c: string) {
    Lower(c) in registry && registry[Lower(c)] == c
  }

  /** What an action makes of one snapshot. */
  function Transform(a: Action, p: TextProps, textEmSize: real): TextProps {
    match a
    case Italicize => Italicized(p, textEmSize)
    case Fade => Faded(p, textEmSize)
    case _ => p
  }

  /** The guard of an action: when it holds, the action writes nothing. */
  predicate Settled(a: Action, p: TextProps) {
    match a
    case Italicize => IsItalic(p)
    case Fade => !CanFade(p)
    case _ => true
  }

  /** One read-modify-write: read the target's properties and the baseline,
      and write back the transformed snapshot unless the guard holds. */
  function Step(f: Formats, t: Target): (r: Formats)
    ensures r.defaults == f.defaults
    ensures r.Get(t.name) == Transform(t.action, f.Get(t.name), f.TextEmSize())
    ensures Settled(t.action, r.Get(t.name))
    ensures Settled(t.action, f.Get(t.name)) ==> r == f
    ensures forall c :: c != t.name ==>
      (c in r.entries <==> c in f.entries) && (c in f.entries ==> r.entries[c] == f.entries[c])
  {
    var p := f.Get(t.name);
    if Settled(t.action, p) then f
    else f.Put(t.name, Transform(t.action, p, f.TextEmSize()))
  }

  /** Work off a list of targets from first to last. */
  function Run(f: Formats, s: seq<Target>): (r: Formats)
    ensures r.defaults == f.defaults
    decreases |s|
  {
    if s == [] then f else Step(Run(f, s[..|s| - 1]), s[|s| - 1])
  }

  /** Loops 1 and 2: the types the registry returns for the table names, in
      table order, all with the loop's action and at most one per name. */
  function ExplicitPlan(a: Action, names: seq<string>, registry: Registry): (r: seq<Target>)
    ensures forall t :: t in r ==> t.action == a
    ensures |r| <= |names|
    decreases |names|
  {
    if names == [] then []
    else
      var init, last := names[..|names| - 1], names[|names| - 1];
      ExplicitPlan(a, init, registry) +
        match GetClassificationType(registry, last)
        case Some(t) => [Target(a, t)]
        case None => []
  }

  /** Loop 3: the non-null classifications of the priority order whose
      fallback action is italicize or fade, in priority order, each with
      that action. */
  function FallbackPlan(order: seq<Option<string>>): (r: seq<Target>)
    ensures forall t :: t in r <==>
      Some(t.name) in order && t.action == FallbackAction(t.name) &&
      (t.action == Italicize || t.action == Fade)
    ensures |r| <= |order|
    decreases |order|
  {
    if order == [] then []
    else
      assert order == order[..|order| - 1] + [order[|order| - 1]];
      var rest := FallbackPlan(order[..|order| - 1]);
      match order[|order| - 1]
      case None => rest
      case Some(c) =>
        var a := FallbackAction(c);
        if a == Italicize || a == Fade then rest + [Target(a, c)] else rest
  }

  /** The targets of a pass: the three loops one after the other. */
  function Plan(registry: Registry, order: seq<Option<string>>): (r: seq<Target>)
    ensures forall t :: t in r ==> t.action == Italicize || t.action == Fade
    ensures |r| <= |CommentTypes| + |DocTagTypes| + |order|
  {
    ExplicitPlan(Italicize, CommentTypes, registry) +
    ExplicitPlan(Fade, DocTagTypes, registry) +
    FallbackPlan(order)
  }

  /** One full pass.  It never changes the defaults nor the baseline
      classification, so every step of it reads the same baseline size. */
  function Pass(f: Formats, registry: Registry, order: seq<Option<string>>): (r: Formats)
    ensures r.defaults == f.defaults
    ensures r.Get(TextName) == f.Get(TextName)
    ensures r.TextEmSize() == f.TextEmSize()
  {
    TextNeverTargeted(registry, order);
    RunLocal(f, Plan(registry, order), TextName);
    Run(f, Plan(registry, order))
  }

  /** The action a pass takes on a classification, decided from its name,
      the registry and whether it is in the priority order.  Only a
      registered type or a priority-order entry is ever written; a table
      name is written exactly when it is the registered type; and the table
      loops never contradict the fallback rule. */
  function PassAction(registry: Registry, order: seq<Option<string>>, c: string): (r: Action)
    ensures r == Italicize || r == Fade ==> RegisteredAs(registry, c) || Some(c) in order
    ensures Listed(Lower(c)) ==> (r == Italicize || r == Fade <==> RegisteredAs(registry, c))
    ensures Some(c) in order && (FallbackAction(c) == Italicize || FallbackAction(c) == Fade) ==>
      r == FallbackAction(c)
  {
    var name := Lower(c);
    if name in CommentTypes then (if RegisteredAs(registry, c) then Italicize else Skip)
    else if name in DocTagTypes then (if RegisteredAs(registry, c) then Fade else Skip)
    else if Some(c) in order then FallbackAction(c)
    else Leave
  }

  function TargetNames(s: seq<Target>): set<string> {
    set t | t in s :: t.name
  }

  // ---- Running a list of targets ----

  lemma RunSnoc(f: Formats, s: seq<Target>, t: Target)
    ensures Run(f, s + [t]) == Step(Run(f, s), t)
  {
    assert (s + [t])[..|s|] == s;
  }

  /** One more table name processed by loop 1 or 2 of a pass. */
  lemma ExplicitStep(f: Formats, a: Action, names: seq<string>, registry: Registry, i: nat)
    requires i < |names|
    ensures Run(f, ExplicitPlan(a, names[..i + 1], registry)) ==
      var done := Run(f, ExplicitPlan(a, names[..i], registry));
      match GetClassificationType(registry, names[i])
      case Some(c) => Step(done, Target(a, c))
      case None => done
  {
    var before := ExplicitPlan(a, names[..i], registry);
    assert names[..i + 1][..i] == names[..i];
    match GetClassificationType(registry, names[i])
    case Some(c) =>
      RunSnoc(f, before, Target(a, c));
    case None =>
      assert before + [] == before;
  }

  /** One more priority-order slot processed by loop 3 of a pass. */
  lemma FallbackStep(f: Formats, order: seq<Option<string>>, i: nat)
    requires i < |order|
    ensures Run(f, FallbackPlan(order[..i + 1])) ==
      var done := Run(f, FallbackPlan(order[..i]));
      match order[i]
      case None => done
      case Some(c) =>
        if FallbackAction(c) == Italicize || FallbackAction(c) == Fade
        then Step(done, Target(FallbackAction(c), c)) else done
  {
    var before := FallbackPlan(order[..i]);
    assert order[..i + 1][..i] == order[..i];
    if order[i].Some? {
      var t := Target(FallbackAction(order[i].value), order[i].value);
      RunSnoc(f, before, t);
    }
  }

  /** Running two lists of targets one after the other is running their
      concatenation. */
  lemma {:induction false} RunAppend(f: Formats, s1: seq<Target>, s2: seq<Target>)
    ensures Run(Run(f, s1), s2) == Run(f, s1 + s2)
    decreases |s2|
  {
    if s2 == [] {
      assert s1 + s2 == s1;
    } else {
      var init, last := s2[..|s2| - 1], s2[|s2| - 1];
      RunAppend(f, s1, init);
      assert s2 == init + [last];
      assert s1 + s2 == (s1 + init) + [last];
      RunSnoc(Run(f, s1), init, last);
      RunSnoc(f, s1 + init, last);
    }
  }

  /** A pass is its three loops run one after the other. */
  lemma PassInLoops(f: Formats, registry: Registry, order: seq<Option<string>>)
    ensures Pass(f, registry, order) ==
      Run(Run(Run(f, ExplicitPlan(Italicize, CommentTypes, registry)),
              ExplicitPlan(Fade, DocTagTypes, registry)),
          FallbackPlan(order))
  {
    var comments := ExplicitPlan(Italicize, CommentTypes, registry);
    var docTags := ExplicitPlan(Fade, DocTagTypes, registry);
    RunAppend(f, comments, docTags);
    RunAppend(f, comments + docTags, FallbackPlan(order));
  }

  /** Locality: a classification that no target names keeps its entry (or
      its absence) and the properties reported for it. */
  lemma {:induction false} RunLocal(f: Formats, s: seq<Target>, c: string)
    requires c !in TargetNames(s)
    ensures c in Run(f, s).entries <==> c in f.entries
    ensures c in f.entries ==> Run(f, s).entries[c] == f.entries[c]
    ensures Run(f, s).Get(c) == f.Get(c)
    decreases |s|
  {
    if s != [] {
      var init := s[..|s| - 1];
      assert s[|s| - 1] in s;
      assert TargetNames(init) <= TargetNames(s) by {
        forall t | t in init ensures t in s { }
      }
      RunLocal(f, init, c);
    }
  }

  /** Every step keeps every guard that already holds: italicizing keeps
      the brush and fading keeps the typeface. */
  lemma StepKeepsSettled(f: Formats, t: Target, a: Action, c: string)
    requires Settled(a, f.Get(c))
    ensures Settled(a, Step(f, t).Get(c))
  {
    if c == t.name {
      RulesCommute(f.Get(c), f.TextEmSize());
    }
  }

  /** After a run, the guard of every target holds. */
  lemma {:induction false} RunSettles(f: Formats, s: seq<Target>)
    ensures forall t :: t in s ==> Settled(t.action, Run(f, s).Get(t.name))
    decreases |s|
  {
    if s != [] {
      var init, last := s[..|s| - 1], s[|s| - 1];
      RunSettles(f, init);
      var g := Run(f, init);
      forall t | t in s
        ensures Settled(t.action, Run(f, s).Get(t.name))
      {
        if t != last {
          assert t in init by {
            var k :| 0 <= k < |s| && s[k] == t;
            assert k < |s| - 1;
            assert init[k] == t;
          }
          StepKeepsSettled(g, last, t.action, t.name);
        }
      }
    }
  }

  /** When every target's guard already holds, a run writes nothing. */
  lemma {:induction false} SettledRunFixed(g: Formats, s: seq<Target>)
    requires forall t :: t in s ==> Settled(t.action, g.Get(t.name))
    ensures Run(g, s) == g
    decreases |s|
  {
    if s != [] {
      var init, last := s[..|s| - 1], s[|s| - 1];
      assert forall t :: t in init ==> t in s;
      SettledRunFixed(g, init);
      assert last in s;
    }
  }

  /** Idempotence: a second pass over the result of a pass changes nothing. */
  lemma PassIdempotent(f: Formats, registry: Registry, order: seq<Option<string>>)
    ensures Pass(Pass(f, registry, order), registry, order) == Pass(f, registry, order)
  {
    var plan := Plan(registry, order);
    RunSettles(f, plan);
    SettledRunFixed(Run(f, plan), plan);
  }

  // ---- What a pass targets ----

  /** A table loop plans a target exactly when some name of its table looks
      that target up. */
  lemma {:induction false} ExplicitPlanMembers(a: Action, names: seq<string>, registry: Registry)
    ensures forall t :: t in ExplicitPlan(a, names, registry) <==>
      t.action == a && exists n :: n in names && GetClassificationType(registry, n) == Some(t.name)
    decreases |names|
  {
    if names != [] {
      var init, last := names[..|names| - 1], names[|names| - 1];
      ExplicitPlanMembers(a, init, registry);
      assert names == init + [last];
    }
  }

  /** The table names are lowercase and distinct. */
  lemma TableNamesLowercase()
    ensures forall n :: n in CommentTypes ==> Lower(n) == n
    ensures forall n :: n in DocTagTypes ==> Lower(n) == n
  {
    forall n | Listed(n) ensures Lower(n) == n {
      ListedNamesSkipped(n);
    }
  }

  /** The targets a table loop plans for a table of lowercase names: the
      types registered under a name of the table. */
  lemma TableTargets(a: Action, names: seq<string>, registry: Registry)
    requires forall n :: n in names ==> Lower(n) == n
    ensures forall t :: t in ExplicitPlan(a, names, registry) <==>
      t.action == a && Lower(t.name) in names && RegisteredAs(registry, t.name)
  {
    ExplicitPlanMembers(a, names, registry);
    forall t: Target | t.action == a && Lower(t.name) in names && RegisteredAs(registry, t.name)
      ensures t in ExplicitPlan(a, names, registry)
    {
      assert GetClassificationType(registry, Lower(t.name)) == Some(t.name);
    }
  }

  /** The two tables share no name. */
  lemma TablesDisjoint(c: string)
    ensures !(c in CommentTypes && c in DocTagTypes)
  {
  }

  /** A pass targets a classification exactly when PassAction says to
      italicize or fade it, and always with that action: the table loops
      take the registered table names, and the fallback loop takes the other
      classifications of the priority order, never a table name. */
  lemma PlanMembers(registry: Registry, order: seq<Option<string>>)
    ensures forall t :: t in Plan(registry, order) <==>
      t.action == PassAction(registry, order, t.name) &&
      (t.action == Italicize || t.action == Fade)
  {
    TableNamesLowercase();
    TableTargets(Italicize, CommentTypes, registry);
    TableTargets(Fade, DocTagTypes, registry);
    forall t
      ensures t in Plan(registry, order) <==>
        t.action == PassAction(registry, order, t.name) &&
        (t.action == Italicize || t.action == Fade)
    {
      TablesDisjoint(Lower(t.name));
    }
  }

  /** The baseline classification is never a target. */
  lemma TextNeverTargeted(registry: Registry, order: seq<Option<string>>)
    ensures TextName !in TargetNames(Plan(registry, order))
  {
    TextNameUnstyled(TextName);
    PlanMembers(registry, order);
    assert PassAction(registry, order, TextName) == Leave;
  }

  /** What a run leaves at one classification, when every target naming it
      carries the same action and the baseline is never a target: the
      action's transform of the original snapshot at the original baseline
      (repeated targets add nothing), or the original snapshot. */
  lemma {:induction false} RunAt(f: Formats, s: seq<Target>, c: string, a: Action)
    requires forall t :: t in s && t.name == c ==> t.action == a
    requires TextName !in TargetNames(s)
    ensures Run(f, s).Get(c) ==
      if c in TargetNames(s) then Transform(a, f.Get(c), f.TextEmSize()) else f.Get(c)
    decreases |s|
  {
    if s != [] {
      var init, last := s[..|s| - 1], s[|s| - 1];
      assert s == init + [last];
      assert TargetNames(s) == TargetNames(init) + {last.name};
      RunAt(f, init, c, a);
      RunLocal(f, init, TextName);
      RulesIdempotent(f.Get(c), f.TextEmSize(), f.TextEmSize());
    }
  }

  /** The pointwise meaning of a pass: every classification ends up as its
      PassAction's transform of its original snapshot, at the original
      baseline size. */
  lemma PassAt(f: Formats, registry: Registry, order: seq<Option<string>>, c: string)
    ensures Pass(f, registry, order).Get(c) ==
      Transform(PassAction(registry, order, c), f.Get(c), f.TextEmSize())
  {
    var plan := Plan(registry, order);
    var a := PassAction(registry, order, c);
    PlanMembers(registry, order);
    TextNeverTargeted(registry, order);
    RunAt(f, plan, c, a);
    if a == Italicize || a == Fade {
      assert Target(a, c) in plan;
    }
  }

  /** Locality of a pass: a classification the pass neither italicizes nor
      fades keeps its entry, or its absence. */
  lemma PassLocal(f: Formats, registry: Registry, order: seq<Option<string>>, c: string)
    requires PassAction(registry, order, c) != Italicize
    requires PassAction(registry, order, c) != Fade
    ensures c in Pass(f, registry, order).entries <==> c in f.entries
    ensures c in f.entries ==> Pass(f, registry, order).entries[c] == f.entries[c]
  {
    PlanMembers(registry, order);
    RunLocal(f, Plan(registry, order), c);
  }

  // ---- After a pass ----

  /** A registered comment-table classification is italic after a pass; it
      keeps its snapshot when it was italic already, and otherwise gets the
      substitute family at normal weight with its own stretch and a size one
      below the baseline.  Its brush is never touched. */
  lemma CommentsAfterPass(f: Formats, registry: Registry, order: seq<Option<string>>, c: string)
    requires Lower(c) in CommentTypes && RegisteredAs(registry, c)
    ensures IsItalic(Pass(f, registry, order).Get(c))
    ensures Pass(f, registry, order).Get(c).foreground == f.Get(c).foreground
    ensures IsItalic(f.Get(c)) ==> Pass(f, registry, order).Get(c) == f.Get(c)
    ensures !IsItalic(f.Get(c)) ==>
      Pass(f, registry, order).Get(c).typeface ==
        Typeface(SubstituteFamily, Italic, NormalWeight, f.Get(c).typeface.stretch) &&
      Pass(f, registry, order).Get(c).emSize == f.TextEmSize() - 1.0
  {
    PassAt(f, registry, order, c);
  }

  /** A registered doc-tag-table classification has, after a pass, a brush
      that is not solid or whose opacity is not 1.0: it keeps its snapshot
      when that held already, and otherwise keeps its colour at opacity 0.7
      and gets a size one below the baseline.  Its typeface is never touched. */
  lemma DocTagsAfterPass(f: Formats, registry: Registry, order: seq<Option<string>>, c: string)
    requires Lower(c) in DocTagTypes && RegisteredAs(registry, c)
    ensures !CanFade(Pass(f, registry, order).Get(c))
    ensures Pass(f, registry, order).Get(c).typeface == f.Get(c).typeface
    ensures !CanFade(f.Get(c)) ==> Pass(f, registry, order).Get(c) == f.Get(c)
    ensures CanFade(f.Get(c)) ==>
      Pass(f, registry, order).Get(c).foreground == SolidColor(f.Get(c).foreground.color, FadedOpacity) &&
      Pass(f, registry, order).Get(c).emSize == f.TextEmSize() - 1.0
  {
    TablesDisjoint(Lower(c));
    PassAt(f, registry, order, c);
  }

  /** A classification whose lowercase name is a table name, but which is
      not the type the registry returns for that name, is skipped: the table
      loop writes the registered type, and the fallback loop skips table
      names. */
  lemma UnregisteredTableNameUntouched(f: Formats, registry: Registry, order: seq<Option<string>>, c: string)
    requires Listed(Lower(c)) && !RegisteredAs(registry, c)
    ensures c in Pass(f, registry, order).entries <==> c in f.entries
    ensures c in f.entries ==> Pass(f, registry, order).entries[c] == f.entries[c]
  {
    TablesDisjoint(Lower(c));
    PassLocal(f, registry, order, c);
  }

  /** A classification outside the tables, taken from the priority order,
      gets its fallback action. */
  lemma FallbackInPass(f: Formats, registry: Registry, order: seq<Option<string>>, c: string)
    requires !Listed(Lower(c)) && Some(c) in order
    ensures Pass(f, registry, order).Get(c) ==
      Transform(FallbackAction(c), f.Get(c), f.TextEmSize())
  {
    PassAt(f, registry, order, c);
  }

  /** "Consolas Comment Extra" in the priority order ends a pass italic. */
  lemma PassItalicizesCommentVariant(f: Formats, registry: Registry, order: seq<Option<string>>, c: string)
    requires c == "Consolas Comment Extra" && Some(c) in order
    ensures IsItalic(Pass(f, registry, order).Get(c))
  {
    FallbackItalicizesCommentVariant(c);
    FallbackInPass(f, registry, order, c);
  }

  /** The registered type "XML Doc Comment", spelled with capitals, is
      italic after a pass: the table loop finds it through the lowercase
      table name. */
  lemma PassItalicizesCapitalizedTableType(f: Formats, registry: Registry, order: seq<Option<string>>, c: string)
    requires c == "XML Doc Comment"
    requires "xml doc comment" in registry && registry["xml doc comment"] == c
    ensures IsItalic(Pass(f, registry, order).Get(c))
  {
    FallbackSkipsCapitalizedTableName(c);
    CommentsAfterPass(f, registry, order, c);
  }

  /** "foo" is never modified by a pass. */
  lemma PassLeavesUnrelated(f: Formats, registry: Registry, order: seq<Option<string>>, c: string)
    requires c == "foo"
    ensures c in Pass(f, registry, order).entries <==> c in f.entries
    ensures c in f.entries ==> Pass(f, registry, order).entries[c] == f.entries[c]
  {
    FallbackLeavesUnrelated(c);
    PassLocal(f, registry, order, c);
  }

  // ---- No classification is transformed twice ----

  predicate DistinctTargets(s: seq<Target>) {
    forall i, j :: 0 <= i < j < |s| ==> s[i].name != s[j].name
  }

  /** No classification occurs twice among the non-null entries. */
  predicate DistinctOrder(order: seq<Option<string>>) {
    forall i, j :: 0 <= i < j < |order| && order[i].Some? ==> order[i] != order[j]
  }

  /** No two names are equal up to case. */
  predicate DistinctNames(names: seq<string>) {
    forall i, j :: 0 <= i < j < |names| ==> Lower(names[i]) != Lower(names[j])
  }

  lemma DistinctAppend(s1: seq<Target>, s2: seq<Target>)
    requires DistinctTargets(s1) && DistinctTargets(s2)
    requires TargetNames(s1) !! TargetNames(s2)
    ensures DistinctTargets(s1 + s2)
  {
    forall i, j | 0 <= i < j < |s1 + s2|
      ensures (s1 + s2)[i].name != (s1 + s2)[j].name
    {
      if i < |s1| && j >= |s1| {
        assert (s1 + s2)[i] == s1[i] && s1[i] in s1;
        assert (s1 + s2)[j] == s2[j - |s1|] && s2[j - |s1|] in s2;
        assert s1[i].name in TargetNames(s1);
        assert s2[j - |s1|].name in TargetNames(s2);
      }
    }
  }

  lemma {:induction false} ExplicitPlanDistinct(a: Action, names: seq<string>, registry: Registry)
    requires DistinctNames(names)
    ensures DistinctTargets(ExplicitPlan(a, names, registry))
    decreases |names|
  {
    if names != [] {
      var init, last := names[..|names| - 1], names[|names| - 1];
      var before := ExplicitPlan(a, init, registry);
      ExplicitPlanDistinct(a, init, registry);
      ExplicitPlanMembers(a, init, registry);
      match GetClassificationType(registry, last)
      case Some(x) =>
        assert x !in TargetNames(before) by {
          forall t | t in before ensures t.name != x {
            var n :| n in init && GetClassificationType(registry, n) == Some(t.name);
            var k :| 0 <= k < |init| && init[k] == n;
            assert names[k] == n;
          }
        }
        DistinctAppend(before, [Target(a, x)]);
      case None =>
        assert before + [] == before;
    }
  }

  lemma {:induction false} FallbackPlanDistinct(order: seq<Option<string>>)
    requires DistinctOrder(order)
    ensures DistinctTargets(FallbackPlan(order))
    decreases |order|
  {
    if order != [] {
      var init, last := order[..|order| - 1], order[|order| - 1];
      FallbackPlanDistinct(init);
      if last.Some? {
        assert last !in init;
        var a := FallbackAction(last.value);
        if a == Italicize || a == Fade {
          DistinctAppend(FallbackPlan(init), [Target(a, last.value)]);
        }
      }
    }
  }

  /** No two table names are equal up to case. */
  lemma TablesDistinct()
    ensures DistinctNames(CommentTypes) && DistinctNames(DocTagTypes)
  {
    TableNamesLowercase();
    LowercaseDistinct(CommentTypes);
    LowercaseDistinct(DocTagTypes);
  }

  lemma LowercaseDistinct(names: seq<string>)
    requires forall n :: n in names ==> Lower(n) == n
    requires forall i, j :: 0 <= i < j < |names| ==> names[i] != names[j]
    ensures DistinctNames(names)
  {
    forall i, j | 0 <= i < j < |names| ensures Lower(names[i]) != Lower(names[j]) {
      assert names[i] in names && names[j] in names;
    }
  }

  /** The table loops target only types whose lowercase name is in their
      own table. */
  lemma TableTargetsListed(registry: Registry)
    ensures forall t :: t in ExplicitPlan(Italicize, CommentTypes, registry) ==> Lower(t.name) in CommentTypes
    ensures forall t :: t in ExplicitPlan(Fade, DocTagTypes, registry) ==> Lower(t.name) in DocTagTypes
  {
    TableNamesLowercase();
    TableTargets(Italicize, CommentTypes, registry);
    TableTargets(Fade, DocTagTypes, registry);
  }

  /** The two table loops together target each type at most once, and
      only types whose lowercase name is a table name. */
  lemma TableLoopsDistinct(registry: Registry)
    ensures DistinctTargets(ExplicitPlan(Italicize, CommentTypes, registry) + ExplicitPlan(Fade, DocTagTypes, registry))
    ensures forall t :: t in ExplicitPlan(Italicize, CommentTypes, registry) + ExplicitPlan(Fade, DocTagTypes, registry) ==>
      Listed(Lower(t.name))
  {
    var p1 := ExplicitPlan(Italicize, CommentTypes, registry);
    var p2 := ExplicitPlan(Fade, DocTagTypes, registry);
    TablesDistinct();
    ExplicitPlanDistinct(Italicize, CommentTypes, registry);
    ExplicitPlanDistinct(Fade, DocTagTypes, registry);
    TableTargetsListed(registry);
    assert TargetNames(p1) !! TargetNames(p2) by {
      forall c | c in TargetNames(p1) ensures c !in TargetNames(p2) {
        TablesDisjoint(Lower(c));
      }
    }
    DistinctAppend(p1, p2);
  }

  /** The fallback loop never targets a type that a table loop targets. */
  lemma FallbackAvoidsTables(registry: Registry, order: seq<Option<string>>)
    ensures TargetNames(ExplicitPlan(Italicize, CommentTypes, registry) + ExplicitPlan(Fade, DocTagTypes, registry))
      !! TargetNames(FallbackPlan(order))
  {
    var p12 := ExplicitPlan(Italicize, CommentTypes, registry) + ExplicitPlan(Fade, DocTagTypes, registry);
    var p3 := FallbackPlan(order);
    TableTargetsListed(registry);
    assert forall t :: t in p12 ==> Listed(Lower(t.name));
    FallbackTargetsUnlisted(order);
    ListedApart(p12, p3);
  }

  /** The fallback loop targets only names whose lowercase form is not a
      table name. */
  lemma FallbackTargetsUnlisted(order: seq<Option<string>>)
    ensures forall t :: t in FallbackPlan(order) ==> !Listed(Lower(t.name))
  {
    forall t | t in FallbackPlan(order) ensures !Listed(Lower(t.name)) {
      assert FallbackAction(t.name) != Skip;
    }
  }

  /** Targets whose lowercase names are table names and targets whose
      lowercase names are not share no name. */
  lemma ListedApart(s1: seq<Target>, s2: seq<Target>)
    requires forall t :: t in s1 ==> Listed(Lower(t.name))
    requires forall t :: t in s2 ==> !Listed(Lower(t.name))
    ensures TargetNames(s1) !! TargetNames(s2)
  {
    forall c | c in TargetNames(s2) ensures c !in TargetNames(s1) {
      var t :| t in s2 && t.name == c;
    }
  }

  /** With a priority order that lists each classification once, a pass
      targets each classification at most once: the fallback loop skips
      the table names, so no classification is written by two loops. */
  lemma PlanDistinct(registry: Registry, order: seq<Option<string>>)
    requires DistinctOrder(order)
    ensures DistinctTargets(Plan(registry, order))
  {
    TableLoopsDistinct(registry);
    FallbackPlanDistinct(order);
    FallbackAvoidsTables(registry, order);
    DistinctAppend(ExplicitPlan(Italicize, CommentTypes, registry) + ExplicitPlan(Fade, DocTagTypes, registry),
                   FallbackPlan(order));
  }
}
