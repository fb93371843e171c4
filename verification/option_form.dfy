/** The rules of the settings form `OptionForm`: the graph types it offers per counter, the
    controls it enables, the handlers that keep the title and the summary apart, the
    "replicate settings" menu, and the reset to defaults. The form edits a working copy of
    the options; each handler is modelled as a function from that copy to the next. */
module OptionForm {
  import opened Wrappers
  import opened GraphTheme
  import Options
  import Counters
  import CounterInfo
  import Graphs
  import Paint

  /** `_availableGraphTypes[key]`: CPU offers SINGLE and STACKED, MEM only SINGLE, DISK and
      NET all three; any other key is missing from the dictionary and its indexer throws. */
  function AvailableGraphTypes(key: string): (r: Result<seq<Options.CounterType>>)
    ensures r.Err? <==> key !in ["CPU", "MEM", "DISK", "NET"]
    ensures r.Err? ==> r.fault == KeyNotFound
  {
    if key == "CPU" then Ok([Options.Single, Options.Stacked])
    else if key == "MEM" then Ok([Options.Single])
    else if key == "DISK" || key == "NET" then Ok([Options.Single, Options.Stacked, Options.Mirrored])
    else Err(KeyNotFound)
  }

  /** Every known counter offers SINGLE; only memory refuses STACKED; only disk and network
      offer MIRRORED; no type is listed twice. */
  lemma GraphTypesOffered(key: string, t: Options.CounterType)
    requires key in ["CPU", "MEM", "DISK", "NET"]
    ensures var r := AvailableGraphTypes(key);
      && r.Ok?
      && Options.Single in r.value
      && (Options.Stacked in r.value <==> key != "MEM")
      && (Options.Mirrored in r.value <==> key == "DISK" || key == "NET")
      && forall i, j :: 0 <= i < j < |r.value| ==> r.value[i] != r.value[j]
  {
  }

  /** The memory counter is offered exactly the one type it draws, whatever its options
      say, and every other counter is offered SINGLE, which the panel draws from its first
      series. */
  lemma OfferedTypesMatchCounters(c: Counters.Counter, counters: seq<Options.Entry>)
    ensures c.Memory? ==>
      AvailableGraphTypes(Counters.Name(c)) == Ok([Counters.GraphType(c, counters).value])
    ensures Options.Single in AvailableGraphTypes(Counters.Name(c)).value
  {
  }

  /** Which option controls of the form accept input for a counter (`UpdateFormScales`,
      `UpdateFormOrder`, `UpdateFormShow`). */
  datatype Editable = Editable(
    separateScales: bool,
    invertOrder: bool,
    titleShadowOnHover: bool,
    valueShadowOnHover: bool,
    titlePosition: bool,
    summaryPosition: bool,
    showSummary: bool)

  /** The enablement rules: separate scales only for MIRRORED graphs, invert order for
      every graph but SINGLE, a shadow flag only while its text shows on HOVER, the title
      position while the title is not HIDDEN, the summary box while the value is not
      HIDDEN, and the summary position while, in addition, the summary box is checked.
      Hence a control that refines another is enabled only while the control it refines
      is. */
  function FormControls(c: Options.CounterOptions): (e: Editable)
    ensures e.separateScales <==> c.graphType == Options.Mirrored
    ensures e.invertOrder <==> c.graphType != Options.Single
    ensures e.titleShadowOnHover <==> c.showTitle == Options.Hover
    ensures e.valueShadowOnHover <==> c.showCurrentValue == Options.Hover
    ensures e.titlePosition <==> c.showTitle != Options.Hidden
    ensures e.summaryPosition <==> c.currentValueAsSummary && c.showCurrentValue != Options.Hidden
    ensures e.showSummary <==> c.showCurrentValue != Options.Hidden
    ensures e.separateScales ==> e.invertOrder
    ensures e.titleShadowOnHover ==> e.titlePosition
    ensures e.valueShadowOnHover ==> e.showSummary
    ensures e.summaryPosition ==> e.showSummary
  {
    Editable(
      c.graphType == Options.Mirrored,
      c.graphType != Options.Single,
      c.showTitle == Options.Hover,
      c.showCurrentValue == Options.Hover,
      c.showTitle != Options.Hidden,
      c.currentValueAsSummary && c.showCurrentValue != Options.Hidden,
      c.showCurrentValue != Options.Hidden)
  }

  /** The value texts of a panel depend on the options only through the value's display
      mode and, under HOVER, its shadow-on-hover flag. */
  lemma {:induction false} ValueShapesSameDisplay(texts: seq<(Options.DisplayPosition, Graphs.Label)>,
                                                  a: Options.CounterOptions, b: Options.CounterOptions,
                                                  theme: Theme, surface: Paint.Surface, gp: int, gy: int,
                                                  historySize: int, maxH: int, titleHeight: real)
    requires a.showCurrentValue == b.showCurrentValue != Options.Hidden
    requires a.showCurrentValue == Options.Hover ==>
      a.showCurrentValueShadowOnHover == b.showCurrentValueShadowOnHover
    ensures Paint.ValueShapes(texts, a, theme, surface, gp, gy, historySize, maxH, titleHeight)
         == Paint.ValueShapes(texts, b, theme, surface, gp, gy, historySize, maxH, titleHeight)
    decreases |texts|
  {
    if |texts| > 0 {
      ValueShapesSameDisplay(texts[1..], a, b, theme, surface, gp, gy, historySize, maxH, titleHeight);
    }
  }

  /** Invert-order is disabled exactly for SINGLE graphs, and a SINGLE graph is drawn the
      same whichever way the flag is set. */
  lemma InvertOrderEditableOnlyWhenDrawn(x: Counters.Counter, o: Options.Options, c: Options.CounterOptions,
                                         b: bool, gp: int, gy: int, maxH: int, theme: Theme)
    requires Counters.GraphType(x, o.counters) == Ok(c.graphType)
    ensures !FormControls(c).invertOrder ==>
      Paint.PanelGraph(x, o, c, gp, gy, maxH, theme) == Paint.PanelGraph(x, o, c.(invertOrder := b), gp, gy, maxH, theme)
  {
  }

  /** The title's shadow-on-hover box is disabled unless the title shows on HOVER, and in
      every other mode the panel's texts do not depend on it. */
  lemma TitleShadowEditableOnlyWhenDrawn(x: Counters.Counter, c: Options.CounterOptions, b: bool, theme: Theme,
                                         surface: Paint.Surface, gp: int, gy: int, historySize: int, maxH: int)
    ensures !FormControls(c).titleShadowOnHover ==>
      Paint.PanelTexts(x, c, theme, surface, gp, gy, historySize, maxH)
        == Paint.PanelTexts(x, c.(showTitleShadowOnHover := b), theme, surface, gp, gy, historySize, maxH)
  {
    var d := c.(showTitleShadowOnHover := b);
    if !FormControls(c).titleShadowOnHover && c.showCurrentValue != Options.Hidden {
      var texts := Paint.ValueTexts(c, Counters.Infos(x), Counters.Summary(x));
      assert Paint.ValueTexts(d, Counters.Infos(x), Counters.Summary(x)) == texts;
      ValueShapesSameDisplay(texts, c, d, theme, surface, gp, gy, historySize, maxH,
                             surface.titleSize(Counters.Name(x)).height);
    }
  }

  /** The value's shadow-on-hover box is disabled unless the value shows on HOVER, and in
      every other mode the panel's texts do not depend on it. */
  lemma ValueShadowEditableOnlyWhenDrawn(x: Counters.Counter, c: Options.CounterOptions, b: bool, theme: Theme,
                                         surface: Paint.Surface, gp: int, gy: int, historySize: int, maxH: int)
    ensures !FormControls(c).valueShadowOnHover ==>
      Paint.PanelTexts(x, c, theme, surface, gp, gy, historySize, maxH)
        == Paint.PanelTexts(x, c.(showCurrentValueShadowOnHover := b), theme, surface, gp, gy, historySize, maxH)
  {
    var d := c.(showCurrentValueShadowOnHover := b);
    if !FormControls(c).valueShadowOnHover && c.showCurrentValue != Options.Hidden {
      var texts := Paint.ValueTexts(c, Counters.Infos(x), Counters.Summary(x));
      assert Paint.ValueTexts(d, Counters.Infos(x), Counters.Summary(x)) == texts;
      ValueShapesSameDisplay(texts, c, d, theme, surface, gp, gy, historySize, maxH,
                             surface.titleSize(Counters.Name(x)).height);
    }
  }

  /** The title position list is disabled while the title is hidden, and a hidden title's
      position changes nothing on the panel. */
  lemma TitlePositionEditableOnlyWhenDrawn(x: Counters.Counter, c: Options.CounterOptions, p: Options.DisplayPosition,
                                           theme: Theme, surface: Paint.Surface, gp: int, gy: int,
                                           historySize: int, maxH: int)
    ensures !FormControls(c).titlePosition ==>
      Paint.PanelTexts(x, c, theme, surface, gp, gy, historySize, maxH)
        == Paint.PanelTexts(x, c.(titlePosition := p), theme, surface, gp, gy, historySize, maxH)
  {
    var d := c.(titlePosition := p);
    if !FormControls(c).titlePosition && c.showCurrentValue != Options.Hidden {
      var texts := Paint.ValueTexts(c, Counters.Infos(x), Counters.Summary(x));
      assert Paint.UsedPosition(d) == Paint.UsedPosition(c);
      assert Paint.ValueTexts(d, Counters.Infos(x), Counters.Summary(x)) == texts;
      ValueShapesSameDisplay(texts, c, d, theme, surface, gp, gy, historySize, maxH,
                             surface.titleSize(Counters.Name(x)).height);
    }
  }

  /** The summary box is disabled while the value is hidden, and then the panel does not
      depend on it; the summary position list is disabled also while the box is clear, and
      a counter with at most two series then places no text by it. */
  lemma SummaryEditableOnlyWhenDrawn(x: Counters.Counter, c: Options.CounterOptions, s: bool, p: Options.DisplayPosition,
                                     theme: Theme, surface: Paint.Surface, gp: int, gy: int,
                                     historySize: int, maxH: int)
    ensures !FormControls(c).showSummary ==>
      Paint.PanelTexts(x, c, theme, surface, gp, gy, historySize, maxH)
        == Paint.PanelTexts(x, c.(currentValueAsSummary := s), theme, surface, gp, gy, historySize, maxH)
    ensures !FormControls(c).summaryPosition && |Counters.Infos(x)| <= 2 ==>
      Paint.PanelTexts(x, c, theme, surface, gp, gy, historySize, maxH)
        == Paint.PanelTexts(x, c.(summaryPosition := p), theme, surface, gp, gy, historySize, maxH)
  {
    var d := c.(summaryPosition := p);
    if !FormControls(c).summaryPosition && |Counters.Infos(x)| <= 2 && c.showCurrentValue != Options.Hidden {
      var texts := Paint.ValueTexts(c, Counters.Infos(x), Counters.Summary(x));
      assert Paint.UsedPosition(d) == Paint.UsedPosition(c);
      assert Paint.ValueTexts(d, Counters.Infos(x), Counters.Summary(x)) == texts;
      ValueShapesSameDisplay(texts, c, d, theme, surface, gp, gy, historySize, maxH,
                             surface.titleSize(Counters.Name(x)).height);
    }
  }

  /** `Enum.GetValues<DisplayPosition>()`: the positions in declaration order. */
  const Positions: seq<Options.DisplayPosition> := [Options.Top, Options.Bottom, Options.Middle]

  /** `Where(x => x != p).First()`: the first position in declaration order other than `p`. */
  function FirstOther(p: Options.DisplayPosition): (r: Options.DisplayPosition)
    ensures r != p
    ensures exists i :: 0 <= i < |Positions| && Positions[i] == r && forall j :: 0 <= j < i ==> Positions[j] == p
  {
    if p.Top? then
      assert Positions[1] == Options.Bottom;
      Options.Bottom
    else
      assert Positions[0] == Options.Top;
      Options.Top
  }

  /** The option fields other than the two positions. */
  predicate SameApartFromPositions(a: Options.CounterOptions, b: Options.CounterOptions) {
    a.(titlePosition := b.titlePosition, summaryPosition := b.summaryPosition) == b
  }

  /** `ListTitlePosition_SelectedIndexChanged`: the title takes the picked position; when
      that is the summary's, the form sets the summary list to the first other position,
      which runs the summary handler in turn. */
  function ChooseTitle(c: Options.CounterOptions, p: Options.DisplayPosition): (r: Options.CounterOptions)
    ensures r.titlePosition == p && r.summaryPosition != p
    ensures SameApartFromPositions(r, c)
    ensures c.summaryPosition != p ==> r.summaryPosition == c.summaryPosition
    ensures c.summaryPosition == p ==> r.summaryPosition == FirstOther(p)
    decreases if p == c.summaryPosition then 1 else 0
  {
    var next := c.(titlePosition := p);
    if next.summaryPosition == next.titlePosition then ChooseSummary(next, FirstOther(p)) else next
  }

  /** `ListSummaryPosition_SelectedIndexChanged`, the mirror image: a summary placed on the
      title moves the title to the first other position. */
  function ChooseSummary(c: Options.CounterOptions, p: Options.DisplayPosition): (r: Options.CounterOptions)
    ensures r.summaryPosition == p && r.titlePosition != p
    ensures SameApartFromPositions(r, c)
    ensures c.titlePosition != p ==> r.titlePosition == c.titlePosition
    ensures c.titlePosition == p ==> r.titlePosition == FirstOther(p)
    decreases if p == c.titlePosition then 1 else 0
  {
    var next := c.(summaryPosition := p);
    if next.summaryPosition == next.titlePosition then ChooseTitle(next, FirstOther(p)) else next
  }

  /** A title on TOP pushes a summary there down to BOTTOM, and a summary on TOP pushes the
      title to BOTTOM; on BOTTOM or MIDDLE the other moves to TOP. */
  lemma CollisionMoves()
    ensures FirstOther(Options.Top) == Options.Bottom
    ensures FirstOther(Options.Bottom) == Options.Top
    ensures FirstOther(Options.Middle) == Options.Top
  {
  }

  /** Once a position has been picked in the form, a shown title never shares its slot with
      any value text the panel draws. */
  lemma ChosenPositionsKeepTextsApart(c: Options.CounterOptions, p: Options.DisplayPosition, title: bool,
                                      infos: seq<CounterInfo.Series>, summary: CounterInfo.Series)
    ensures var r := if title then ChooseTitle(c, p) else ChooseSummary(c, p);
      r.showTitle != Options.Hidden ==>
        forall i :: 0 <= i < |Paint.ValueTexts(r, infos, summary)| ==>
          Paint.ValueTexts(r, infos, summary)[i].0 != r.titlePosition
  {
  }

  /** The text of the first item of the replicate menu. */
  const AllOthers: string := "All other graphs"

  /** The counters a click on the replicate menu copies to: every key other than the
      selected one for "All other graphs", otherwise the clicked item's key. */
  function Targets(keys: seq<string>, selected: string, clicked: string): (ts: seq<string>)
    ensures clicked == AllOthers ==> forall k :: k in ts <==> k in keys && k != selected
    ensures clicked != AllOthers ==> ts == [clicked]
  {
    if clicked == AllOthers then Others(keys, selected) else [clicked]
  }

  function Others(keys: seq<string>, selected: string): (ts: seq<string>)
    ensures forall k :: k in ts <==> k in keys && k != selected
    decreases |keys|
  {
    if |keys| == 0 then []
    else if keys[0] != selected then [keys[0]] + Others(keys[1..], selected)
    else Others(keys[1..], selected)
  }

  /** The seven display fields the replicate menu copies. */
  predicate SameDisplay(a: Options.CounterOptions, b: Options.CounterOptions) {
    && a.showTitle == b.showTitle
    && a.showCurrentValue == b.showCurrentValue
    && a.currentValueAsSummary == b.currentValueAsSummary
    && a.summaryPosition == b.summaryPosition
    && a.showTitleShadowOnHover == b.showTitleShadowOnHover
    && a.showCurrentValueShadowOnHover == b.showCurrentValueShadowOnHover
    && a.titlePosition == b.titlePosition
  }

  /** The four fields the replicate menu leaves alone. */
  predicate SameBehaviour(a: Options.CounterOptions, b: Options.CounterOptions) {
    a.enabled == b.enabled && a.graphType == b.graphType
    && a.invertOrder == b.invertOrder && a.separateScales == b.separateScales
  }

  /** One target of the replicate loop: the seven display fields of the active counter. */
  function CopyDisplay(active: Options.CounterOptions, target: Options.CounterOptions): (r: Options.CounterOptions)
    ensures SameDisplay(r, active) && SameBehaviour(r, target)
  {
    target.(showTitle := active.showTitle,
            showCurrentValue := active.showCurrentValue,
            currentValueAsSummary := active.currentValueAsSummary,
            summaryPosition := active.summaryPosition,
            showTitleShadowOnHover := active.showTitleShadowOnHover,
            showCurrentValueShadowOnHover := active.showCurrentValueShadowOnHover,
            titlePosition := active.titlePosition)
  }

  /** The loop over the targets; the indexer throws on a key the options lack, keeping the
      copies already made. */
  function ReplicateTo(es: seq<Options.Entry>, targets: seq<string>, active: Options.CounterOptions)
    : (r: Outcome<seq<Options.Entry>>)
    ensures r.fault.Some? ==> r.fault == Some(KeyNotFound)
    decreases |targets|
  {
    if |targets| == 0 then Outcome(es, None)
    else
      match Options.Lookup(es, targets[0])
      case Err(f) => Outcome(es, Some(f))
      case Ok(t) => ReplicateTo(Options.Put(es, targets[0], CopyDisplay(active, t)), targets[1..], active)
  }

  /** `ContextMenuStripReplicateSettings_OnClick`. */
  function Replicate(es: seq<Options.Entry>, selected: string, active: Options.CounterOptions, clicked: string)
    : (r: Outcome<seq<Options.Entry>>)
    ensures r.fault.Some? ==> r.fault == Some(KeyNotFound)
  {
    ReplicateTo(es, Targets(Options.Keys(es), selected, clicked), active)
  }

  /** The expected effect of the replicate loop on one entry. */
  function Replicated(e: Options.Entry, targets: seq<string>, active: Options.CounterOptions): Options.Entry {
    if e.key in targets then Options.Entry(e.key, CopyDisplay(active, e.options)) else e
  }

  /** Entries with the same keys in the same places answer the same key questions. */
  lemma SameKeys(a: seq<Options.Entry>, b: seq<Options.Entry>)
    requires Options.Keys(a) == Options.Keys(b)
    ensures |a| == |b| && forall i :: 0 <= i < |a| ==> a[i].key == b[i].key
    ensures forall x :: Options.HasKey(a, x) <==> Options.HasKey(b, x)
    ensures Options.UniqueKeys(a) <==> Options.UniqueKeys(b)
  {
    assert forall i :: 0 <= i < |a| ==> a[i].key == Options.Keys(a)[i] == Options.Keys(b)[i] == b[i].key;
    forall x ensures Options.HasKey(a, x) <==> Options.HasKey(b, x) {
      if Options.HasKey(a, x) {
        var j :| 0 <= j < |a| && a[j].key == x;
        assert b[j].key == x;
      }
      if Options.HasKey(b, x) {
        var j :| 0 <= j < |b| && b[j].key == x;
        assert a[j].key == x;
      }
    }
  }

  /** Rewriting the options of one entry keeps every key in place. */
  lemma UpdateKeepsKeys(es: seq<Options.Entry>, k: int, v: Options.CounterOptions)
    requires Options.UniqueKeys(es) && 0 <= k < |es|
    ensures var next := es[k := Options.Entry(es[k].key, v)];
      && Options.Keys(next) == Options.Keys(es)
      && Options.UniqueKeys(next)
      && forall x :: Options.HasKey(next, x) <==> Options.HasKey(es, x)
  {
    var next := es[k := Options.Entry(es[k].key, v)];
    assert Options.Keys(next) == Options.Keys(es);
    SameKeys(next, es);
  }

  /** Storing under the key of entry `k` of entries with unique keys rewrites entry `k`. */
  lemma PutAt(es: seq<Options.Entry>, k: int, v: Options.CounterOptions)
    requires Options.UniqueKeys(es) && 0 <= k < |es|
    ensures Options.Put(es, es[k].key, v) == es[k := Options.Entry(es[k].key, v)]
  {
    assert Options.HasKey(es, es[k].key);
  }

  /** One turn of the loop on a target the options hold rewrites that target's entry. */
  lemma ReplicateStep(es: seq<Options.Entry>, targets: seq<string>, active: Options.CounterOptions, k: int)
    requires Options.UniqueKeys(es) && |targets| > 0 && 0 <= k < |es| && es[k].key == targets[0]
    ensures ReplicateTo(es, targets, active)
         == ReplicateTo(es[k := Options.Entry(targets[0], CopyDisplay(active, es[k].options))], targets[1..], active)
  {
    Options.LookupAt(es, k);
    PutAt(es, k, CopyDisplay(active, es[k].options));
  }

  /** The loop keeps the keys in place. */
  lemma {:induction false} ReplicateToKeys(es: seq<Options.Entry>, targets: seq<string>,
                                           active: Options.CounterOptions)
    requires Options.UniqueKeys(es)
    ensures Options.Keys(ReplicateTo(es, targets, active).state) == Options.Keys(es)
    decreases |targets|
  {
    if |targets| > 0 && Options.HasKey(es, targets[0]) {
      var k :| 0 <= k < |es| && es[k].key == targets[0];
      ReplicateStep(es, targets, active, k);
      UpdateKeepsKeys(es, k, CopyDisplay(active, es[k].options));
      ReplicateToKeys(es[k := Options.Entry(targets[0], CopyDisplay(active, es[k].options))], targets[1..], active);
    }
  }

  /** The loop throws exactly when one of its targets is missing from the options. */
  lemma {:induction false} ReplicateToFault(es: seq<Options.Entry>, targets: seq<string>,
                                            active: Options.CounterOptions)
    requires Options.UniqueKeys(es)
    ensures ReplicateTo(es, targets, active).fault.None?
        <==> forall j :: 0 <= j < |targets| ==> Options.HasKey(es, targets[j])
    decreases |targets|
  {
    if |targets| > 0 {
      var t := targets[0];
      if Options.HasKey(es, t) {
        var k :| 0 <= k < |es| && es[k].key == t;
        var next := es[k := Options.Entry(t, CopyDisplay(active, es[k].options))];
        ReplicateStep(es, targets, active, k);
        UpdateKeepsKeys(es, k, CopyDisplay(active, es[k].options));
        ReplicateToFault(next, targets[1..], active);
        assert forall j :: 1 <= j < |targets| ==> targets[j] == targets[1..][j - 1];
      } else {
        assert Options.Lookup(es, t).Err?;
      }
    }
  }

  /** When the loop completes every target holds the active counter's display fields over
      its own behaviour fields, and every other entry is untouched. */
  lemma {:induction false} ReplicateToEntries(es: seq<Options.Entry>, targets: seq<string>,
                                              active: Options.CounterOptions)
    requires Options.UniqueKeys(es)
    ensures var r := ReplicateTo(es, targets, active);
      r.fault.None? ==> |r.state| == |es| && forall i :: 0 <= i < |es| ==> r.state[i] == Replicated(es[i], targets, active)
    decreases |targets|
  {
    var r := ReplicateTo(es, targets, active);
    if |targets| > 0 && r.fault.None? {
      var t := targets[0];
      var rest := targets[1..];
      ReplicateToFault(es, targets, active);
      assert Options.HasKey(es, t);
      var k :| 0 <= k < |es| && es[k].key == t;
      var next := es[k := Options.Entry(t, CopyDisplay(active, es[k].options))];
      ReplicateStep(es, targets, active, k);
      UpdateKeepsKeys(es, k, CopyDisplay(active, es[k].options));
      ReplicateToEntries(next, rest, active);
      forall i | 0 <= i < |es| ensures r.state[i] == Replicated(es[i], targets, active) {
        assert r.state[i] == Replicated(next[i], rest, active);
        assert es[i].key in targets <==> es[i].key == t || es[i].key in rest;
        if i == k {
          assert CopyDisplay(active, CopyDisplay(active, es[k].options)) == CopyDisplay(active, es[k].options);
        } else {
          assert es[i].key != t;
        }
      }
    }
  }

  /** Replicating the same settings again changes nothing: the copy is idempotent. */
  lemma ReplicateIdempotent(es: seq<Options.Entry>, selected: string, active: Options.CounterOptions, clicked: string)
    requires Options.UniqueKeys(es)
    ensures var r := Replicate(es, selected, active, clicked);
      r.fault.None? ==> Replicate(r.state, selected, active, clicked) == r
  {
    var targets := Targets(Options.Keys(es), selected, clicked);
    var r := ReplicateTo(es, targets, active);
    ReplicateToKeys(es, targets, active);
    ReplicateToFault(es, targets, active);
    ReplicateToEntries(es, targets, active);
    if r.fault.None? {
      SameKeys(r.state, es);
      assert Targets(Options.Keys(r.state), selected, clicked) == targets;
      ReplicateToKeys(r.state, targets, active);
      ReplicateToFault(r.state, targets, active);
      ReplicateToEntries(r.state, targets, active);
      var again := ReplicateTo(r.state, targets, active);
      assert again.fault.None?;
      forall i | 0 <= i < |es| ensures again.state[i] == r.state[i] {
        assert again.state[i] == Replicated(r.state[i], targets, active);
        assert r.state[i] == Replicated(es[i], targets, active);
        assert CopyDisplay(active, CopyDisplay(active, es[i].options)) == CopyDisplay(active, es[i].options);
      }
      SameKeys(again.state, r.state);
      assert again.state == r.state;
    }
  }

  /** "All other graphs" with a selected key the options hold completes, and afterwards
      every counter shows its texts like the selected one while keeping its own graph. */
  lemma ReplicateToAllOthers(es: seq<Options.Entry>, selected: string, active: Options.CounterOptions)
    requires Options.UniqueKeys(es)
    ensures var r := Replicate(es, selected, active, AllOthers);
      && r.fault.None?
      && Options.Keys(r.state) == Options.Keys(es)
      && forall i :: 0 <= i < |es| ==>
           if es[i].key == selected then r.state[i] == es[i]
           else SameDisplay(r.state[i].options, active) && SameBehaviour(r.state[i].options, es[i].options)
  {
    var targets := Targets(Options.Keys(es), selected, AllOthers);
    ReplicateToKeys(es, targets, active);
    ReplicateToFault(es, targets, active);
    ReplicateToEntries(es, targets, active);
    forall j | 0 <= j < |targets| ensures Options.HasKey(es, targets[j]) {
      assert targets[j] in Options.Keys(es);
      var k :| 0 <= k < |es| && Options.Keys(es)[k] == targets[j];
      assert es[k].key == targets[j];
    }
    forall i | 0 <= i < |es| ensures es[i].key in targets <==> es[i].key != selected {
      assert es[i].key == Options.Keys(es)[i];
    }
  }

  /** `ButtonResetDefaults_Click`: the default options merged into the working options and
      the dark theme copied into the working theme. */
  function ResetDefaults(o: Options.Options, t: Theme): (r: (Options.Options, Theme))
    ensures r.0.historySize == 50 && r.0.pollTime == 3 && r.0.themeType == Options.Dark
    ensures r.0.version == o.version
    ensures r.1 == DefaultDarkTheme().(version := t.version)
  {
    (Options.CopyTo(Options.DefaultOptions(), o), GraphTheme.CopyTo(DefaultDarkTheme(), t))
  }

  /** After a reset the four known counters hold fresh options, the history, poll time and
      theme choice are the defaults and the theme is the dark one; a counter the defaults do
      not name keeps its options, and both versions stay. */
  lemma ResetRestoresDefaults(o: Options.Options, t: Theme)
    requires Options.UniqueKeys(o.counters)
    ensures var (ro, rt) := ResetDefaults(o, t);
      && ro.historySize == 50 && ro.pollTime == 3 && ro.themeType == Options.Dark
      && ro.version == o.version
      && (forall k :: k in ["CPU", "MEM", "DISK", "NET"] ==>
            Options.Lookup(ro.counters, k) == Ok(Options.NewCounterOptions()))
      && (forall k :: k !in ["CPU", "MEM", "DISK", "NET"] ==>
            Options.Lookup(ro.counters, k) == Options.Lookup(o.counters, k))
      && rt == DefaultDarkTheme().(version := t.version)
  {
    var d := Options.DefaultOptions().counters;
    Options.DefaultKeysUnique();
    Options.CopyEntriesValues(d, o.counters);
    forall k ensures Options.HasKey(d, k) <==> k in ["CPU", "MEM", "DISK", "NET"] {
      if Options.HasKey(d, k) {
        var i :| 0 <= i < |d| && d[i].key == k;
        assert Options.Keys(d)[i] == k;
      }
      if k in ["CPU", "MEM", "DISK", "NET"] {
        var i :| 0 <= i < 4 && ["CPU", "MEM", "DISK", "NET"][i] == k;
        assert d[i].key == Options.Keys(d)[i];
      }
    }
    forall k | k in ["CPU", "MEM", "DISK", "NET"]
      ensures Options.Lookup(d, k) == Ok(Options.NewCounterOptions())
    {
      var i :| 0 <= i < |d| && d[i].key == k;
      Options.LookupAt(d, i);
    }
  }
}
