/** The settings object (`Options`, `CounterOptions`): defaults, the merging copy and the
    version upgrade.

    `CounterOptions` is a `Dictionary<string, CounterOptions>`; entries are only ever added,
    so it enumerates in insertion order, which the paint loop and the settings form depend
    on. The model keeps it as an insertion-ordered list of entries with distinct keys. */
module Options {
  import opened Wrappers
  import GraphTheme

  /** The layout kinds. The enum's declaration is not part of this model; a fresh
      `CounterOptions` takes the first member, taken here to be SINGLE. */
  datatype CounterType = Single | Mirrored | Stacked

  datatype DisplayType = Hidden | Show | Hover

  /** Declaration order TOP, BOTTOM, MIDDLE matters: the settings form picks the first
      position in this order when it resolves a collision. */
  datatype DisplayPosition = Top | Bottom | Middle

  datatype ThemeList = Automatic | Dark | Light | Custom

  datatype CounterOptions = CounterOptions(
    enabled: bool,
    showTitle: DisplayType,
    titlePosition: DisplayPosition,
    showTitleShadowOnHover: bool,
    showCurrentValue: DisplayType,
    showCurrentValueShadowOnHover: bool,
    currentValueAsSummary: bool,
    summaryPosition: DisplayPosition,
    invertOrder: bool,
    separateScales: bool,
    graphType: CounterType)

  datatype Entry = Entry(key: string, options: CounterOptions)

  const LatestOptionsVersion: int := 2

  datatype Options = Options(
    version: int,
    counters: seq<Entry>,
    historySize: int,
    pollTime: int,
    themeType: ThemeList)

  /** `new CounterOptions()`. */
  function NewCounterOptions(): (o: CounterOptions)
    ensures o.enabled && o.showTitle == Hover && o.titlePosition == Middle
    ensures o.showTitleShadowOnHover && o.showCurrentValue == Show
    ensures o.showCurrentValueShadowOnHover && o.currentValueAsSummary
    ensures o.summaryPosition == Top && !o.invertOrder && o.separateScales
    ensures o.graphType == Single
  {
    CounterOptions(true, Hover, Middle, true, Show, true, true, Top, false, true, Single)
  }

  /** The keys of a dictionary are distinct. */
  predicate UniqueKeys(es: seq<Entry>) {
    forall i, j :: 0 <= i < j < |es| ==> es[i].key != es[j].key
  }

  predicate HasKey(es: seq<Entry>, key: string) {
    exists i :: 0 <= i < |es| && es[i].key == key
  }

  function Keys(es: seq<Entry>): (ks: seq<string>)
    ensures |ks| == |es| && forall i :: 0 <= i < |es| ==> ks[i] == es[i].key
  {
    seq(|es|, i requires 0 <= i < |es| => es[i].key)
  }

  /** `dictionary[key]`, which throws `KeyNotFoundException` for a missing key. */
  function Lookup(es: seq<Entry>, key: string): (r: Result<CounterOptions>)
    ensures r.Ok? <==> HasKey(es, key)
    ensures r.Err? ==> r.fault == KeyNotFound
    ensures r.Ok? ==> exists i :: 0 <= i < |es| && es[i] == Entry(key, r.value)
  {
    if |es| == 0 then Err(KeyNotFound)
    else if es[0].key == key then Ok(es[0].options)
    else
      var r := Lookup(es[1..], key);
      assert HasKey(es[1..], key) ==> HasKey(es, key) by {
        if HasKey(es[1..], key) {
          var i :| 0 <= i < |es[1..]| && es[1..][i].key == key;
          assert es[i + 1].key == key;
        }
      }
      assert HasKey(es, key) ==> HasKey(es[1..], key) by {
        if HasKey(es, key) {
          var i :| 0 <= i < |es| && es[i].key == key;
          assert i > 0 && es[1..][i - 1].key == key;
        }
      }
      assert r.Ok? ==> exists i :: 0 <= i < |es| && es[i] == Entry(key, r.value) by {
        if r.Ok? {
          var i :| 0 <= i < |es[1..]| && es[1..][i] == Entry(key, r.value);
          assert es[i + 1] == Entry(key, r.value);
        }
      }
      r
  }

  /** With distinct keys the entry `Lookup` finds is the one holding the key. */
  lemma LookupAt(es: seq<Entry>, i: int)
    requires UniqueKeys(es) && 0 <= i < |es|
    ensures Lookup(es, es[i].key) == Ok(es[i].options)
  {
    var r := Lookup(es, es[i].key);
    var j :| 0 <= j < |es| && es[j] == Entry(es[i].key, r.value);
  }

  /** `dictionary[key] = value` on an existing key, or `Add(key, value)` for a new one:
      an existing entry is overwritten in place, a new one is appended. */
  function Put(es: seq<Entry>, key: string, value: CounterOptions): (r: seq<Entry>)
    ensures HasKey(es, key) ==> |r| == |es|
    ensures !HasKey(es, key) ==> r == es + [Entry(key, value)]
    ensures forall i :: 0 <= i < |es| ==> r[i].key == es[i].key
    ensures forall i :: 0 <= i < |es| && es[i].key != key ==> r[i] == es[i]
    ensures forall i :: 0 <= i < |es| && es[i].key == key ==> r[i].options == value
  {
    if HasKey(es, key) then
      seq(|es|, i requires 0 <= i < |es| => if es[i].key == key then Entry(key, value) else es[i])
    else es + [Entry(key, value)]
  }

  lemma PutKeepsKeysUnique(es: seq<Entry>, key: string, value: CounterOptions)
    requires UniqueKeys(es)
    ensures UniqueKeys(Put(es, key, value))
    ensures HasKey(Put(es, key, value), key)
    ensures forall k :: HasKey(Put(es, key, value), k) <==> HasKey(es, k) || k == key
  {
    var r := Put(es, key, value);
    if !HasKey(es, key) {
      assert r[|es|].key == key;
    } else {
      var i :| 0 <= i < |es| && es[i].key == key;
      assert r[i].key == key;
    }
    forall k | HasKey(r, k) ensures HasKey(es, k) || k == key {
      var i :| 0 <= i < |r| && r[i].key == k;
      if i < |es| { assert es[i].key == k; }
    }
    forall k | HasKey(es, k) ensures HasKey(r, k) {
      var i :| 0 <= i < |es| && es[i].key == k;
      assert r[i].key == k;
    }
  }

  /** The target of one copy step with the key present: unchanged if it holds the key,
      else with a `new CounterOptions()` appended for it. */
  function WithKey(target: seq<Entry>, key: string): seq<Entry> {
    if HasKey(target, key) then target else target + [Entry(key, NewCounterOptions())]
  }

  /** Adding the key keeps the target's entries in place and its keys distinct, and adds
      no key but that one. */
  lemma WithKeySpec(target: seq<Entry>, key: string)
    requires UniqueKeys(target)
    ensures var w := WithKey(target, key);
            && UniqueKeys(w) && HasKey(w, key) && |w| >= |target|
            && (forall i :: 0 <= i < |target| ==> w[i] == target[i])
            && (forall k :: HasKey(w, k) <==> HasKey(target, k) || k == key)
  {
    var w := WithKey(target, key);
    if !HasKey(target, key) {
      assert w[|target|].key == key;
      forall i, j | 0 <= i < j < |w| ensures w[i].key != w[j].key {
        if j == |target| { assert target[i].key != key; }
      }
    }
    forall k | HasKey(w, k) ensures HasKey(target, k) || k == key {
      var i :| 0 <= i < |w| && w[i].key == k;
      if i < |target| { assert target[i].key == k; }
    }
    forall k | HasKey(target, k) ensures HasKey(w, k) {
      var i :| 0 <= i < |target| && target[i].key == k;
      assert w[i].key == k;
    }
  }

  /** One iteration of the entries loop of `source.CopyTo(target)`: the target gains the
      key if it lacked it (a `new CounterOptions()`), then all eleven fields are overwritten
      with the source's, so the target ends up holding the source entry's value. */
  function CopyEntry(target: seq<Entry>, e: Entry): seq<Entry> {
    Put(WithKey(target, e.key), e.key, e.options)
  }

  /** One copy step keeps the target's keys in place and distinct and adds the entry's. */
  lemma CopyEntrySpec(target: seq<Entry>, e: Entry)
    requires UniqueKeys(target)
    ensures var r := CopyEntry(target, e);
            && UniqueKeys(r)
            && |r| >= |target|
            && (forall i :: 0 <= i < |target| ==> r[i].key == target[i].key)
            && (forall k :: HasKey(r, k) <==> HasKey(target, k) || k == e.key)
  {
    WithKeySpec(target, e.key);
    PutKeepsKeysUnique(WithKey(target, e.key), e.key, e.options);
  }

  /** After one copy step the entry's key holds the entry's options and every other key
      what it held before. */
  lemma CopyEntryLookup(target: seq<Entry>, e: Entry)
    requires UniqueKeys(target)
    ensures var r := CopyEntry(target, e);
            && Lookup(r, e.key) == Ok(e.options)
            && (forall k :: k != e.key ==> Lookup(r, k) == Lookup(target, k))
  {
    var w := WithKey(target, e.key);
    WithKeySpec(target, e.key);
    var r := Put(w, e.key, e.options);
    PutKeepsKeysUnique(w, e.key, e.options);
    var i :| 0 <= i < |w| && w[i].key == e.key;
    LookupAt(r, i);
    forall k | k != e.key
      ensures Lookup(r, k) == Lookup(target, k)
    {
      if HasKey(target, k) {
        var j :| 0 <= j < |target| && target[j].key == k;
        LookupAt(target, j);
        LookupAt(r, j);
      } else {
        assert !HasKey(r, k);
      }
    }
  }

  /** The entries loop of `source.CopyTo(target)`, in the source's enumeration order. */
  function CopyEntries(source: seq<Entry>, target: seq<Entry>): seq<Entry>
    decreases |source|
  {
    if |source| == 0 then target
    else CopyEntries(source[1..], CopyEntry(target, source[0]))
  }

  /** `source.CopyTo(target)`: the three scalar settings and every per-counter entry of the
      source; the target's version and its entries for other keys stay. */
  function CopyTo(source: Options, target: Options): (r: Options)
    ensures r.version == target.version
    ensures r.historySize == source.historySize && r.pollTime == source.pollTime
    ensures r.themeType == source.themeType
  {
    Options(target.version, CopyEntries(source.counters, target.counters),
            source.historySize, source.pollTime, source.themeType)
  }

  lemma HasKeyTail(source: seq<Entry>, k: string)
    requires |source| > 0
    ensures HasKey(source, k) <==> k == source[0].key || HasKey(source[1..], k)
  {
    if HasKey(source, k) && k != source[0].key {
      var i :| 0 <= i < |source| && source[i].key == k;
      assert source[1..][i - 1].key == k;
    }
    if HasKey(source[1..], k) {
      var i :| 0 <= i < |source[1..]| && source[1..][i].key == k;
      assert source[i + 1].key == k;
    }
    if k == source[0].key { assert source[0].key == k; }
  }

  /** The merge keeps the target's keys in place and adds the source's new keys. */
  lemma {:induction false} CopyEntriesKeys(source: seq<Entry>, target: seq<Entry>)
    requires UniqueKeys(target)
    ensures var r := CopyEntries(source, target);
            && UniqueKeys(r)
            && |r| >= |target|
            && (forall i :: 0 <= i < |target| ==> r[i].key == target[i].key)
            && (forall k :: HasKey(r, k) <==> HasKey(target, k) || HasKey(source, k))
    decreases |source|
  {
    if |source| > 0 {
      var next := CopyEntry(target, source[0]);
      CopyEntrySpec(target, source[0]);
      CopyEntriesKeys(source[1..], next);
      forall k ensures HasKey(source, k) <==> k == source[0].key || HasKey(source[1..], k) {
        HasKeyTail(source, k);
      }
    }
  }

  /** After the merge every source key holds the source's options and every other key
      keeps the target's. */
  lemma {:induction false} CopyEntriesValues(source: seq<Entry>, target: seq<Entry>)
    requires UniqueKeys(source) && UniqueKeys(target)
    ensures var r := CopyEntries(source, target);
            && (forall k :: HasKey(source, k) ==> Lookup(r, k) == Lookup(source, k))
            && (forall k :: !HasKey(source, k) ==> Lookup(r, k) == Lookup(target, k))
    decreases |source|
  {
    if |source| > 0 {
      var e := source[0];
      var rest := source[1..];
      var next := CopyEntry(target, e);
      CopyEntrySpec(target, e);
      CopyEntryLookup(target, e);
      assert UniqueKeys(rest);
      CopyEntriesValues(rest, next);
      var r := CopyEntries(rest, next);
      assert !HasKey(rest, e.key);
      forall k | HasKey(source, k)
        ensures Lookup(r, k) == Lookup(source, k)
      {
        HasKeyTail(source, k);
      }
      forall k | !HasKey(source, k)
        ensures Lookup(r, k) == Lookup(target, k)
      {
        HasKeyTail(source, k);
      }
    }
  }

  /** `Options.DefaultOptions()`: four counters CPU, MEM, DISK and NET in that order, each a
      fresh `CounterOptions` with SINGLE graphs; history 50, poll time 3, dark theme. */
  function DefaultOptions(): (o: Options)
    ensures Keys(o.counters) == ["CPU", "MEM", "DISK", "NET"]
    ensures forall i :: 0 <= i < |o.counters| ==> o.counters[i].options == NewCounterOptions()
    ensures o.historySize == 50 && o.pollTime == 3 && o.themeType == Dark
    ensures o.version == LatestOptionsVersion
  {
    var co := NewCounterOptions().(graphType := Single);
    Options(LatestOptionsVersion,
            [Entry("CPU", co), Entry("MEM", co), Entry("DISK", co), Entry("NET", co)],
            50, 3, Dark)
  }

  lemma DefaultKeysUnique()
    ensures UniqueKeys(DefaultOptions().counters)
  {
  }

  /** `_Upgrade(theme)`: versions 0 and 1 both take the version-1 branch (the version-0 case
      falls through): the theme choice becomes CUSTOM when `IsCustom` says so and AUTOMATIC
      otherwise, and the version becomes 2. Any other version is left alone. `IsCustom` is
      only consulted for versions 0 and 1, and its exception escapes. */
  function Upgrade(o: Options, theme: GraphTheme.Theme): (r: Result<(Options, bool)>)
    ensures o.version != 0 && o.version != 1 ==> r == Ok((o, false))
    ensures (o.version == 0 || o.version == 1) && r.Ok? ==>
              && r.value.1
              && r.value.0 == o.(version := LatestOptionsVersion,
                                 themeType := if GraphTheme.IsCustom(theme) == Ok(true) then Custom else Automatic)
    ensures r.Err? <==> (o.version == 0 || o.version == 1) && GraphTheme.IsCustom(theme).Err?
  {
    if LatestOptionsVersion > o.version then
      match o.version
      case 0 | 1 =>
        var custom :- GraphTheme.IsCustom(theme);
        var themeType := if custom then Custom else Automatic;
        Ok((o.(themeType := themeType, version := LatestOptionsVersion), true))
      case _ => Ok((o, false))
    else Ok((o, false))
  }

  /** Because `IsCustom` never answers false, upgrading an old configuration never picks
      AUTOMATIC: a theme with a title font always makes it CUSTOM. */
  lemma UpgradeAlwaysPicksCustom(o: Options, theme: GraphTheme.Theme)
    requires o.version == 0 || o.version == 1
    requires theme.titleFont.Some?
    ensures Upgrade(o, theme) == Ok((o.(version := LatestOptionsVersion, themeType := Custom), true))
  {
    GraphTheme.IsCustomNeverFalse(theme);
  }
}
