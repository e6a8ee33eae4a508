/** The watcher itself: the object that owns the re-entrancy flag, runs the
    three loops of a pass against a shared format map, and is attached to a
    text view at most once.  Event subscriptions are booleans (or a handler
    slot) and raising an event is an explicit call of the handler. */
module Watcher {
  import opened Wrappers
  import opened Styles
  import Names
  import opened FormatPass

  /** The editor's classification format map: entries keyed by
      classification name, the properties reported for a classification
      without an entry, and the current priority order (which may hold null
      slots).  It is shared: the watcher is one writer among several. */
  class FormatMap {
    var entries: map<string, TextProps>
    const defaults: TextProps
    var priorityOrder: seq<Option<string>>

    constructor (entries: map<string, TextProps>, defaults: TextProps, priorityOrder: seq<Option<string>>)
      ensures this.entries == entries && this.defaults == defaults
      ensures this.priorityOrder == priorityOrder
    {
      this.entries := entries;
      this.defaults := defaults;
      this.priorityOrder := priorityOrder;
    }

    function Formats(): Formats
      reads this
    {
      FormatPass.Formats(entries, defaults)
    }

    method GetTextProperties(classification: string) returns (p: TextProps)
      ensures p == Formats().Get(classification)
    {
      p := if classification in entries then entries[classification] else defaults;
    }

    /** Replaces one entry; the priority order is not affected. */
    method SetTextProperties(classification: string, p: TextProps)
      modifies this
      ensures entries == old(entries)[classification := p]
      ensures priorityOrder == old(priorityOrder)
    {
      entries := entries[classification := p];
    }
  }

  class FormatMapWatcher {
    var inUpdate: bool
    const formatMap: FormatMap
    const typeRegistry: Registry
    /** Whether FormatMapChanged is subscribed to the map's change event. */
    var mapChangedSubscribed: bool
    /** How many passes have been started. */
    ghost var passes: nat

    /** Runs a first pass, then subscribes to the map's change event and to
        the view's focus event. */
    constructor (view: TextView, formatMap: FormatMap, typeRegistry: Registry)
      modifies view, formatMap
      ensures this.formatMap == formatMap && this.typeRegistry == typeRegistry
      ensures formatMap.Formats() == Pass(old(formatMap.Formats()), typeRegistry, old(formatMap.priorityOrder))
      ensures formatMap.priorityOrder == old(formatMap.priorityOrder)
      ensures !inUpdate && mapChangedSubscribed && passes == 1
      ensures view.gotFocusHandler == this && view.watcher == old(view.watcher)
    {
      this.formatMap := formatMap;
      this.typeRegistry := typeRegistry;
      inUpdate := false;
      mapChangedSubscribed := false;
      passes := 0;
      new;
      FixComments();
      mapChangedSubscribed := true;
      view.gotFocusHandler := this;
    }

    /** The one-shot focus handler: unsubscribes itself, then runs a pass. */
    method FirstGotFocus(sender: TextView)
      modifies this, formatMap, sender
      ensures sender.gotFocusHandler == if old(sender.gotFocusHandler) == this then null else old(sender.gotFocusHandler)
      ensures sender.watcher == old(sender.watcher)
      ensures formatMap.Formats() == Pass(old(formatMap.Formats()), typeRegistry, old(formatMap.priorityOrder))
      ensures formatMap.priorityOrder == old(formatMap.priorityOrder)
      ensures !inUpdate && passes == old(passes) + 1
      ensures mapChangedSubscribed == old(mapChangedSubscribed)
    {
      if sender.gotFocusHandler == this {
        sender.gotFocusHandler := null;
      }
      FixComments();
    }

    /** The change handler: starts a pass only when none is running; a
        notification raised by a pass's own write-back does nothing. */
    method FormatMapChanged()
      modifies this, formatMap
      decreases if inUpdate then 0 else 5
      ensures old(inUpdate) ==> unchanged(this, formatMap)
      ensures !old(inUpdate) ==>
        formatMap.Formats() == Pass(old(formatMap.Formats()), typeRegistry, old(formatMap.priorityOrder)) &&
        !inUpdate && passes == old(passes) + 1
      ensures formatMap.priorityOrder == old(formatMap.priorityOrder)
      ensures mapChangedSubscribed == old(mapChangedSubscribed)
    {
      if !inUpdate {
        FixComments();
      }
    }

    /** The write-back notification: the map raises its change event, which
        reaches FormatMapChanged once it is subscribed. */
    method NotifyMapChanged()
      requires inUpdate
      modifies this, formatMap
      decreases 1
      ensures unchanged(this, formatMap)
    {
      if mapChangedSubscribed {
        FormatMapChanged();
      }
    }

    /** One full pass: the registered comment-table types are italicized,
        the registered doc-tag-table types are faded, then every other
        classification of the priority order gets its fallback action.  The
        flag is set for the whole pass and cleared at the end, and the
        change notifications the pass raises start no further pass.  Each of
        the three loops is a method of its own below. */
    method FixComments()
      modifies this, formatMap
      decreases 4
      ensures formatMap.Formats() == Pass(old(formatMap.Formats()), typeRegistry, old(formatMap.priorityOrder))
      ensures formatMap.priorityOrder == old(formatMap.priorityOrder)
      ensures !inUpdate && passes == old(passes) + 1
      ensures mapChangedSubscribed == old(mapChangedSubscribed)
    {
      inUpdate := true;
      passes := passes + 1;
      PassInLoops(formatMap.Formats(), typeRegistry, formatMap.priorityOrder);
      ItalicizeKnownComments();
      FadeKnownDocTags();
      FixOthers();
      inUpdate := false;
    }

    /** Loop 1: each comment-table name the registry resolves is italicized. */
    method ItalicizeKnownComments()
      requires inUpdate
      modifies this, formatMap
      decreases 3
      ensures formatMap.Formats() ==
        Run(old(formatMap.Formats()), ExplicitPlan(Names.Italicize, Names.CommentTypes, typeRegistry))
      ensures formatMap.priorityOrder == old(formatMap.priorityOrder)
      ensures inUpdate && passes == old(passes) && mapChangedSubscribed == old(mapChangedSubscribed)
    {
      for i := 0 to |Names.CommentTypes|
        invariant inUpdate && passes == old(passes)
        invariant mapChangedSubscribed == old(mapChangedSubscribed)
        invariant formatMap.priorityOrder == old(formatMap.priorityOrder)
        invariant formatMap.Formats() ==
          Run(old(formatMap.Formats()), ExplicitPlan(Names.Italicize, Names.CommentTypes[..i], typeRegistry))
      {
        ExplicitStep(old(formatMap.Formats()), Names.Italicize, Names.CommentTypes, typeRegistry, i);
        var t := GetClassificationType(typeRegistry, Names.CommentTypes[i]);
        if t.Some? {
          Italicize(t.value);
        }
      }
      assert Names.CommentTypes[..|Names.CommentTypes|] == Names.CommentTypes;
    }

    /** Loop 2: each doc-tag-table name the registry resolves is faded. */
    method FadeKnownDocTags()
      requires inUpdate
      modifies this, formatMap
      decreases 3
      ensures formatMap.Formats() ==
        Run(old(formatMap.Formats()), ExplicitPlan(Names.Fade, Names.DocTagTypes, typeRegistry))
      ensures formatMap.priorityOrder == old(formatMap.priorityOrder)
      ensures inUpdate && passes == old(passes) && mapChangedSubscribed == old(mapChangedSubscribed)
    {
      for i := 0 to |Names.DocTagTypes|
        invariant inUpdate && passes == old(passes)
        invariant mapChangedSubscribed == old(mapChangedSubscribed)
        invariant formatMap.priorityOrder == old(formatMap.priorityOrder)
        invariant formatMap.Formats() ==
          Run(old(formatMap.Formats()), ExplicitPlan(Names.Fade, Names.DocTagTypes[..i], typeRegistry))
      {
        ExplicitStep(old(formatMap.Formats()), Names.Fade, Names.DocTagTypes, typeRegistry, i);
        var t := GetClassificationType(typeRegistry, Names.DocTagTypes[i]);
        if t.Some? {
          Fade(t.value);
        }
      }
      assert Names.DocTagTypes[..|Names.DocTagTypes|] == Names.DocTagTypes;
    }

    /** Loop 3: every non-null classification of the priority order whose
        lowercase name is not a table name is italicized when it contains
        "comment", and otherwise faded when it contains "doc tag". */
    method FixOthers()
      requires inUpdate
      modifies this, formatMap
      decreases 3
      ensures formatMap.Formats() ==
        Run(old(formatMap.Formats()), FallbackPlan(old(formatMap.priorityOrder)))
      ensures formatMap.priorityOrder == old(formatMap.priorityOrder)
      ensures inUpdate && passes == old(passes) && mapChangedSubscribed == old(mapChangedSubscribed)
    {
      var order := formatMap.priorityOrder;
      for i := 0 to |order|
        invariant inUpdate && passes == old(passes)
        invariant mapChangedSubscribed == old(mapChangedSubscribed)
        invariant formatMap.priorityOrder == order
        invariant formatMap.Formats() == Run(old(formatMap.Formats()), FallbackPlan(order[..i]))
      {
        FallbackStep(old(formatMap.Formats()), order, i);
        var classification := order[i];
        if classification.None? {
          continue;
        }
        var c := classification.value;
        var name := Names.Lower(c);
        if name in Names.CommentTypes || name in Names.DocTagTypes {
          continue;
        }
        if Names.Contains(name, Names.CommentMarker) {
          Italicize(c);
        } else if Names.Contains(name, Names.DocTagMarker) {
          Fade(c);
        }
      }
      assert order[..|order|] == order;
    }

    /** Italicizes one classification unless it is italic already, and
        writes the result back into the map. */
    method Italicize(classification: string)
      requires inUpdate
      modifies this, formatMap
      decreases 2
      ensures formatMap.Formats() == Step(old(formatMap.Formats()), Target(Names.Italicize, classification))
      ensures formatMap.priorityOrder == old(formatMap.priorityOrder)
      ensures inUpdate && passes == old(passes) && mapChangedSubscribed == old(mapChangedSubscribed)
    {
      var textFormat := formatMap.GetTextProperties(Names.TextName);
      var properties := formatMap.GetTextProperties(classification);
      var typeface := properties.typeface;

      if typeface.style == Italic {
        return;
      }

      var newTypeface := Typeface(SubstituteFamily, Italic, NormalWeight, typeface.stretch);
      properties := properties.SetTypeface(newTypeface);
      properties := properties.SetFontRenderingEmSize(textFormat.emSize - SizeReduction);
      formatMap.SetTextProperties(classification, properties);
      NotifyMapChanged();
    }

    /** Fades one classification unless its brush is not solid or its
        opacity is not 1.0, and writes the result back into the map. */
    method Fade(classification: string)
      requires inUpdate
      modifies this, formatMap
      decreases 2
      ensures formatMap.Formats() == Step(old(formatMap.Formats()), Target(Names.Fade, classification))
      ensures formatMap.priorityOrder == old(formatMap.priorityOrder)
      ensures inUpdate && passes == old(passes) && mapChangedSubscribed == old(mapChangedSubscribed)
    {
      var textFormat := formatMap.GetTextProperties(Names.TextName);
      var properties := formatMap.GetTextProperties(classification);
      var brush := properties.foreground;

      if !brush.SolidColor? || brush.opacity != 1.0 {
        return;
      }

      properties := properties.SetFontRenderingEmSize(textFormat.emSize - SizeReduction);
      properties := properties.SetForegroundBrush(SolidColor(brush.color, FadedOpacity));
      formatMap.SetTextProperties(classification, properties);
      NotifyMapChanged();
    }
  }

  /** A text view: the format map the format-map service gives for it, the
      slot of its property bag that holds its watcher, and the handler
      subscribed to its focus event. */
  class TextView {
    const formatMap: FormatMap
    var watcher: FormatMapWatcher?
    var gotFocusHandler: FormatMapWatcher?

    constructor (formatMap: FormatMap)
      ensures this.formatMap == formatMap && watcher == null && gotFocusHandler == null
    {
      this.formatMap := formatMap;
      watcher := null;
      gotFocusHandler := null;
    }

    /** The view gains focus: the subscribed handler, if any, is called. */
    method GotAggregateFocus()
      modifies this, if gotFocusHandler != null then {gotFocusHandler, gotFocusHandler.formatMap} else {}
      ensures gotFocusHandler == null
      ensures watcher == old(watcher)
      ensures old(gotFocusHandler) == null ==> unchanged(this)
      ensures old(gotFocusHandler) != null ==>
        old(gotFocusHandler).passes == old(gotFocusHandler.passes) + 1 &&
        old(gotFocusHandler).formatMap.Formats() ==
          Pass(old(gotFocusHandler.formatMap.Formats()), old(gotFocusHandler).typeRegistry,
               old(gotFocusHandler.formatMap.priorityOrder))
      ensures old(gotFocusHandler) != null ==>
        !old(gotFocusHandler).inUpdate &&
        old(gotFocusHandler).mapChangedSubscribed == old(gotFocusHandler.mapChangedSubscribed) &&
        old(gotFocusHandler).formatMap.priorityOrder == old(gotFocusHandler.formatMap.priorityOrder)
    {
      var handler := gotFocusHandler;
      if handler != null {
        handler.FirstGotFocus(this);
      }
    }
  }

  class ViewCreationListener {
    const typeRegistry: Registry

    constructor (typeRegistry: Registry)
      ensures this.typeRegistry == typeRegistry
    {
      this.typeRegistry := typeRegistry;
    }

    /** Attaches a watcher to a new view, unless the view has one already. */
    method TextViewCreated(textView: TextView)
      modifies textView, textView.formatMap
      ensures old(textView.watcher) != null ==>
        textView.watcher == old(textView.watcher) && unchanged(textView, textView.formatMap)
      ensures old(textView.watcher) == null ==>
        textView.watcher != null && fresh(textView.watcher) &&
        textView.watcher.formatMap == textView.formatMap &&
        textView.watcher.typeRegistry == typeRegistry &&
        textView.watcher.mapChangedSubscribed && !textView.watcher.inUpdate &&
        textView.watcher.passes == 1 &&
        textView.gotFocusHandler == textView.watcher &&
        textView.formatMap.Formats() ==
          Pass(old(textView.formatMap.Formats()), typeRegistry, old(textView.formatMap.priorityOrder))
      ensures textView.formatMap.priorityOrder == old(textView.formatMap.priorityOrder)
    {
      if textView.watcher == null {
        var w := new FormatMapWatcher(textView, textView.formatMap, typeRegistry);
        textView.watcher := w;
      }
    }
  }
}
