# ItalicComments: the format-map watcher, modelled in Dafny

ItalicComments is a Visual Studio editor extension. It restyles comment
classifications and doc-tag classifications whenever a text view is created or
the view's classification format map changes:

- comments become italic, in "Lucida Sans" at normal weight, one unit smaller
  than the "text" classification;
- documentation tags keep their colour at opacity 0.7, also one unit smaller.

This project models the `FormatMapWatcher` class and the listener that attaches
it to a view (`ViewCreationListener.cs`). It proves what one restyling pass does
and which properties it keeps.

- `Styles` (styles.dfy): the text-properties record. It holds the typeface
  (family, style, weight, stretch), the em-size and the foreground brush, which
  is either a solid colour with an opacity or some other brush. Also here are
  the two guarded rules, `Italicized` and `Faded`.
- `Names` (names.dfy): the two fixed name tables, invariant lowercasing
  (ASCII), substring search and the fallback rule `FallbackAction`. The
  fallback rule sorts any other classification into italicize, fade, leave
  alone, or skip (a table name).
- `FormatPass` (format_pass.dfy): the value-level specification of a pass. A
  pass is a list of targets, each an action and a classification, in loop
  order. The list depends only on the type registry and the priority order.
  The registry's lookup ignores case, so it is a map from lowercased name to
  the registered type, and a type spelled with capitals ("XML Doc Comment")
  is found through its lowercase table name.
  `Pass` runs the guarded read-modify-write `Step` over that list. The lemmas
  cover idempotence, locality, the pointwise result, what holds after a pass,
  and that no classification is targeted twice.
- `Watcher` (watcher.dfy): the imperative model. It has four classes:
  - `FormatMap`: the shared map from classification name to properties, with
    defaults and a priority order.
  - `FormatMapWatcher`: the `inUpdate` flag and `FixComments`. Each of the
    three loops of `FixComments` is a method of its own
    (`ItalicizeKnownComments`, `FadeKnownDocTags`, `FixOthers`), which
    `FixComments` calls in order while the flag is set. `Italicize`, `Fade`
    and the two event handlers are also its methods.
  - `TextView`: its watcher slot and its focus-handler slot.
  - `ViewCreationListener`.

  Every write-back raises the map's change event. The model does this with an
  explicit call to the writing watcher's own `FormatMapChanged` whenever that
  handler is subscribed, so the re-entrancy guard is exercised. The handlers call each other recursively.
  Their termination measure is `if inUpdate then 0 else 5`, so Dafny's
  termination proof is itself the argument that a write-back can never start a
  nested pass of the same watcher. The ghost counter `passes` rises by exactly one per
  `FixComments`.

Both rules are guarded, and the guards decide what a pass leaves alone:

- `Italicize` returns at once when the entry is already italic
  (ViewCreationListener.cs:124). Such an entry keeps its whole snapshot, its
  family, weight and em-size included; only the other entries get the
  substitute family and the size one unit below the baseline
  (`CommentsAfterPass`).
- `Fade` returns at once when the brush is not a solid colour or its opacity
  is already not 1.0 (ViewCreationListener.cs:147). Such an entry is left
  exactly as it was (`DocTagsAfterPass`).

## Model

| member | source | states |
|---|---|---|
| `Styles.Italicized` | ViewCreationListener.cs:121-133 | The result is always italic and keeps the brush. An italic entry is returned unchanged. Any other entry becomes "Lucida Sans", italic, normal weight (400), keeps its own stretch, and gets em-size = text em-size − 1. |
| `Styles.Faded` | ViewCreationListener.cs:144-154 | The result never has a solid brush at opacity 1.0, and the typeface is untouched. A non-solid brush or an opacity ≠ 1.0 leaves the entry unchanged. Otherwise the colour is kept at opacity 0.7 and em-size = text em-size − 1. |
| `Styles.RulesIdempotent` | ViewCreationListener.cs:124-148 | Applying either rule a second time, at any baseline, changes nothing (the guards at lines 124 and 147). |
| `Styles.RulesCommute` | ViewCreationListener.cs:129-154 | Fading keeps an entry italic, and italicizing keeps an entry faded, because the two rules write disjoint parts of the record. The two rules also commute on one snapshot at one baseline; that is a fact about the record only, since no pass applies both to one classification. |
| `Names.LowerChar` | ViewCreationListener.cs:97 | The result is never an upper-case letter. A character that is not upper case maps to itself. An upper-case letter maps to the lower-case letter at the same place in the alphabet. |
| `Names.Lower` | ViewCreationListener.cs:97 | Lowercasing keeps the length and maps each character by `LowerChar`, so an upper-case letter becomes the lower-case letter at the same place in the alphabet. It leaves every character that is not an upper-case letter in place, and leaves no upper-case letter (per character, `LowerChar`; as a projection, `LowerProjects`). |
| `Names.LowerProjects` | ViewCreationListener.cs:97 | The lowercased string is lowercase. Lowercase strings are fixed points. Lowering twice is lowering once. |
| `Names.Contains` | ViewCreationListener.cs:101-105 | The recursive substring search is true exactly when the marker occurs at some index (reference definition `OccursAt`). |
| `Names.FallbackAction` | ViewCreationListener.cs:97-108 | The fallback rule skips exactly the names whose lowercase form is a table name (both directions). It italicizes only a name whose lowercase form contains "comment". It fades only a name whose lowercase form contains "doc tag" but not "comment". |
| `Names.ListedNamesSkipped` | ViewCreationListener.cs:42-43 | The five table names are already lowercase, so the fallback rule skips each of them. |
| `Names.FallbackCaseInsensitive` | ViewCreationListener.cs:97-108 | The fallback decision depends only on the lowercased name. |
| `Names.FallbackDispatch` | ViewCreationListener.cs:97-108 | In terms of occurrences, both directions: skip exactly for lowercased table names. Italicize exactly when "comment" occurs, whether or not "doc tag" does. Fade exactly when only "doc tag" occurs. Leave exactly when neither occurs. |
| `Names.FallbackItalicizesCommentVariant` | ViewCreationListener.cs:101-104 | "Consolas Comment Extra" is italicized by the fallback rule. |
| `Names.FallbackSkipsCapitalizedTableName` | ViewCreationListener.cs:97-99 | "XML Doc Comment" lowercases to the table name "xml doc comment", so the fallback loop skips it. |
| `Names.FallbackFadesDocTagVariant` | ViewCreationListener.cs:105-108 | "Doc Tag" is faded by the fallback rule. |
| `Names.FallbackPrefersComment` | ViewCreationListener.cs:101-108 | Any name outside the tables whose lowercase form contains both "comment" and "doc tag" is italicized, not faded. |
| `Names.FallbackPrefersCommentExample` | ViewCreationListener.cs:101-108 | "doc tag comment" contains both markers and is italicized. |
| `Names.TextNameUnstyled` | ViewCreationListener.cs:48 | "text" is lowercase, is not a table name, and is left alone by the fallback rule. |
| `Names.FallbackLeavesUnrelated` | ViewCreationListener.cs:97-108 | "foo" is left alone. |
| `FormatPass.Step` | ViewCreationListener.cs:117-157 | One read-modify-write. The target ends up as the action's transform of its old snapshot at the current baseline, and its guard holds afterwards. If the guard held already, nothing is written. Every other entry and the defaults are unchanged. |
| `FormatPass.GetClassificationType` | ViewCreationListener.cs:81-82 | The lookup finds a type exactly when the lowercased name is registered. The type found is the registered type itself, spelled as registered, and it has the same lowercase form as the name asked for. |
| `FormatPass.Run` | ViewCreationListener.cs:78-109 | A run never changes the defaults. That the targets are worked off first to last is its definition, not part of its contract. |
| `FormatPass.ExplicitPlan` | ViewCreationListener.cs:81-92 | A table loop plans only targets with its own action, and no more targets than its table has names. |
| `FormatPass.FallbackPlan` | ViewCreationListener.cs:95-109 | The fallback loop plans a target exactly for a non-null priority-order classification whose fallback action is italicize or fade, with that action (both directions). It plans at most one target per slot. |
| `FormatPass.Plan` | ViewCreationListener.cs:78-109 | The targets of a pass, in loop order: the comment-table loop, then the doc-tag-table loop, then the fallback loop. Every target is italicize or fade, and there are at most as many as the table names plus the priority-order slots. `PlanMembers` states exactly which classifications are targeted; `PlanDistinct` states that none is targeted twice. |
| `FormatPass.Pass` | ViewCreationListener.cs:72-115 | A pass never changes the defaults or the "text" entry, so the baseline em-size is the same before and after. |
| `FormatPass.PassAction` | ViewCreationListener.cs:81-109 | Only a registered type or a priority-order classification is ever italicized or faded. A classification whose lowercase name is a table name is written exactly when it is the registered type. A priority-order classification whose fallback action is italicize or fade gets that action. |
| `FormatPass.ExplicitStep` | ViewCreationListener.cs:81-92 | One more table name in loop 1 or 2 adds one `Step` when the registry knows the name, and nothing otherwise. |
| `FormatPass.FallbackStep` | ViewCreationListener.cs:95-109 | One more priority-order slot in loop 3 adds one `Step` for a non-null classification whose fallback action is italicize or fade, and nothing otherwise. |
| `FormatPass.RunAppend` | ViewCreationListener.cs:78-109 | Running one target list and then another is running their concatenation, so the three loops together make one pass. |
| `FormatPass.PassInLoops` | ViewCreationListener.cs:78-109 | A pass is the comment-table loop, then the doc-tag-table loop, then the fallback loop, each run on the result of the one before. |
| `FormatPass.RunLocal` | ViewCreationListener.cs:136-156 | A classification that no target names keeps its entry (or its absence) and its reported properties. |
| `FormatPass.StepKeepsSettled` | ViewCreationListener.cs:124-154 | No step ever undoes a guard that already holds. |
| `FormatPass.RunSettles` | ViewCreationListener.cs:81-109 | After a run, every target's guard holds. |
| `FormatPass.SettledRunFixed` | ViewCreationListener.cs:124-148 | A run whose targets all satisfy their guards writes nothing. |
| `FormatPass.PassIdempotent` | ViewCreationListener.cs:72-115 | Running a pass on the result of a pass gives the same format map. |
| `FormatPass.ExplicitPlanMembers` | ViewCreationListener.cs:81-92 | A table loop targets a type exactly when some name of its table looks that type up, always with the table's action (both directions). |
| `FormatPass.TableNamesLowercase` | ViewCreationListener.cs:42-43 | Every table name is its own lowercase form. |
| `FormatPass.TableTargets` | ViewCreationListener.cs:81-92 | For a table of lowercase names, a table loop targets exactly the types registered under a table name, with the table's action (both directions). |
| `FormatPass.TablesDisjoint` | ViewCreationListener.cs:42-43 | No name is in both tables. |
| `FormatPass.PlanMembers` | ViewCreationListener.cs:72-115 | A pass targets a classification iff `PassAction` says italicize or fade, and always with that action. |
| `FormatPass.TextNeverTargeted` | ViewCreationListener.cs:48 | The "text" classification, which supplies the baseline size, is never written by a pass. |
| `FormatPass.RunAt` | ViewCreationListener.cs:78-109 | Suppose every target naming a classification has the same action and the baseline is never targeted. Then the run leaves that classification at its action's transform of the original snapshot, or at the original snapshot if it is not targeted. |
| `FormatPass.PassAt` | ViewCreationListener.cs:72-115 | Pointwise meaning of a pass: every classification ends as its `PassAction`'s transform of its original snapshot, at the original baseline. |
| `FormatPass.PassLocal` | ViewCreationListener.cs:72-115 | A classification that the pass neither italicizes nor fades keeps its entry, or its absence. |
| `FormatPass.CommentsAfterPass` | ViewCreationListener.cs:80-136 | The registered type of a comment-table name is italic after a pass and keeps its brush. It is unchanged if it was italic already. Otherwise it is Lucida Sans at normal weight with its own stretch, at baseline − 1. |
| `FormatPass.DocTagsAfterPass` | ViewCreationListener.cs:87-156 | The registered type of a doc-tag-table name ends with a non-solid brush or an opacity ≠ 1.0, and keeps its typeface. It is unchanged if that held already. Otherwise its colour is kept at opacity 0.7, at baseline − 1. |
| `FormatPass.UnregisteredTableNameUntouched` | ViewCreationListener.cs:81-99 | A classification whose lowercase name is a table name, but which is not the type the registry returns for it, is skipped by the table loop and by the fallback loop, so its entry is unchanged. |
| `FormatPass.FallbackInPass` | ViewCreationListener.cs:94-109 | A priority-order classification outside the tables ends as its fallback action's transform. |
| `FormatPass.PassItalicizesCommentVariant` | ViewCreationListener.cs:101-104 | "Consolas Comment Extra" in the priority order is italic after a pass. |
| `FormatPass.PassItalicizesCapitalizedTableType` | ViewCreationListener.cs:81-85 | A registry that returns "XML Doc Comment" for "xml doc comment" gets that type italicized by the table loop. |
| `FormatPass.PassLeavesUnrelated` | ViewCreationListener.cs:97-109 | A pass never modifies "foo". |
| `FormatPass.DistinctAppend` | ViewCreationListener.cs:81-109 | Concatenating target lists with disjoint, individually distinct names gives distinct names. |
| `FormatPass.ExplicitPlanDistinct` | ViewCreationListener.cs:81-92 | A table loop targets each name at most once. |
| `FormatPass.FallbackPlanDistinct` | ViewCreationListener.cs:95-109 | The fallback loop targets each classification at most once when the priority order lists it once. |
| `FormatPass.TablesDistinct` | ViewCreationListener.cs:42-43 | No two names of a table are equal up to case. |
| `FormatPass.LowercaseDistinct` | ViewCreationListener.cs:42-43 | Distinct lowercase names stay distinct after lowercasing. |
| `FormatPass.TableTargetsListed` | ViewCreationListener.cs:81-92 | A table loop targets only types whose lowercase name is in its own table. |
| `FormatPass.TableLoopsDistinct` | ViewCreationListener.cs:81-92 | The two table loops together target each type at most once, and only types whose lowercase name is a table name. |
| `FormatPass.FallbackTargetsUnlisted` | ViewCreationListener.cs:98-99 | The fallback loop targets only classifications whose lowercase name is not a table name. |
| `FormatPass.ListedApart` | ViewCreationListener.cs:98-99 | Targets whose lowercase names are table names and targets whose lowercase names are not share no classification. |
| `FormatPass.FallbackAvoidsTables` | ViewCreationListener.cs:81-99 | The fallback loop never targets a type that a table loop targets. |
| `FormatPass.PlanDistinct` | ViewCreationListener.cs:98-99 | With a duplicate-free priority order, no classification is transformed twice in one pass. The fallback loop skips the table names. |
| `Watcher.FormatMap.GetTextProperties` | ViewCreationListener.cs:119-120 | Reading gives the entry, or the defaults when there is none. |
| `Watcher.FormatMap.SetTextProperties` | ViewCreationListener.cs:136 | Writing replaces exactly one entry and leaves the priority order alone. |
| `Watcher.FormatMapWatcher.constructor` | ViewCreationListener.cs:45-55 | Construction runs one pass before subscribing to the map's change event, then subscribes to it and to the view's focus event. The flag is clear and exactly one pass has started. |
| `Watcher.FormatMapWatcher.FirstGotFocus` | ViewCreationListener.cs:57-64 | The handler unsubscribes itself from the view's focus event and runs exactly one pass. |
| `Watcher.FormatMapWatcher.FormatMapChanged` | ViewCreationListener.cs:66-70 | While a pass runs, a notification changes nothing. Otherwise it runs exactly one pass and leaves the flag clear. |
| `Watcher.FormatMapWatcher.NotifyMapChanged` | ViewCreationListener.cs:136 | A write-back notification raised during a pass changes nothing. |
| `Watcher.FormatMapWatcher.FixComments` | ViewCreationListener.cs:72-115 | The new map is `Pass` of the old one, over the registry and the priority order. Exactly one pass is counted, the flag is clear at the end, and the subscriptions are unchanged. |
| `Watcher.FormatMapWatcher.ItalicizeKnownComments` | ViewCreationListener.cs:80-85 | The new map is the old one run over the comment-table loop's targets; the flag stays set and the priority order is kept. |
| `Watcher.FormatMapWatcher.FadeKnownDocTags` | ViewCreationListener.cs:87-92 | The new map is the old one run over the doc-tag-table loop's targets; the flag stays set and the priority order is kept. |
| `Watcher.FormatMapWatcher.FixOthers` | ViewCreationListener.cs:94-109 | The new map is the old one run over the fallback loop's targets for the priority order; the flag stays set and the priority order is kept. |
| `Watcher.FormatMapWatcher.Italicize` | ViewCreationListener.cs:117-137 | The new map is one italicize `Step` of the old one, and the flag stays set. |
| `Watcher.FormatMapWatcher.Fade` | ViewCreationListener.cs:139-157 | The new map is one fade `Step` of the old one, and the flag stays set. |
| `Watcher.TextView.GotAggregateFocus` | ViewCreationListener.cs:54-59 | When the view gains focus, the subscribed handler runs one pass and the slot ends empty, so a later focus event changes nothing. The handler ends with its flag clear, its change subscription kept, and its map's priority order unchanged. |
| `Watcher.ViewCreationListener.TextViewCreated` | ViewCreationListener.cs:28-32 | A view that already has a watcher is left as it is. Otherwise one fresh watcher is stored in the view's slot, after one pass and with both subscriptions in place. The map's priority order is unchanged in both cases. |

## Left out

- MEF export and import attributes and the host services: the format-map
  service becomes the view's `formatMap` field, and the type registry becomes a
  map from lowercased name to registered type, looked up without regard to
  case. A registry holding two types whose names differ only in case cannot be
  written down in the model.
- WPF objects (`Typeface`, `FontFamily`, `SolidColorBrush`, font styles and
  weights) become plain records. Rendering is not modelled.
- Em-size and opacity are `real`. IEEE `double` rounding is not modelled.
  Opacity is compared with 1.0 exactly, as the code does.
- `ToLowerInvariant` is modelled as ASCII lowercasing only.
- Events are modelled as a subscribed boolean for the map's change event and a
  handler slot on the view for its focus event. Raising an event is an explicit
  handler call. Other subscribers of the change event, and other writers of
  the shared map, are not modelled.
- Watchers of other views that hold the same `FormatMap` are not notified of a
  pass's write-backs. In the program each of them is subscribed to the map's
  change event and runs a full pass of its own, nested inside the writing one.
- The `finally` clause of `FixComments` is modelled by its normal path only.
  The model has no exceptions, so the flag is cleared at the end of the pass.
- The watcher reads the "text" entry of the map directly. If the registry did
  not know "text", the code would pass null to `GetTextProperties`. That
  failure is not modelled.
- The priority order is read once, before the third loop. In the model, writes
  never change it.
- The diagnostic `Debug.Assert` in `FirstGotFocus` is not modelled.
