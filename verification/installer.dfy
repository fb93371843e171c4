/** The pure parts of the installer: the command-line dispatch, the uninstall command it
    registers, and the clean-up of pending file renames a previous uninstall left for the
    next reboot. The registry and the file system are inputs and outputs of these
    functions rather than effects. */
module Installer {
  import opened Wrappers
  import opened Strings

  /** What `Main` runs. */
  datatype Action = Install | RollBack

  const UninstallFlag: string := "/uninstall"

  /** `Main`: uninstall exactly when the first argument is `/uninstall` in any letter case;
      later arguments are ignored, and no argument means install. */
  function Dispatch(args: seq<string>): (a: Action)
    ensures |args| == 0 ==> a == Install
    ensures a == RollBack <==>
      |args| > 0 && |args[0]| == |UninstallFlag|
      && forall i :: 0 <= i < |UninstallFlag| ==> LowerChar(args[0][i]) == UninstallFlag[i]
  {
    if |args| > 0 && ToLower(args[0]) == UninstallFlag then RollBack else Install
  }

  /** The `UninstallString` value written under the uninstall key: the installer's path
      followed by the uninstall flag. */
  function UninstallString(exe: string): (s: string)
    ensures |s| == |exe| + 1 + |UninstallFlag|
    ensures s[..|exe|] == exe && s[|exe|] == ' '
    ensures s[|exe| + 1..] == UninstallFlag
  {
    exe + " /uninstall"
  }

  /** Windows runs the registered uninstall string with the flag as the first argument, so
      the installer then rolls back. */
  lemma UninstallStringRollsBack(exe: string)
    ensures Dispatch([UninstallString(exe)[|exe| + 1..]]) == RollBack
  {
  }

  /** The flag is matched in any letter case and extra arguments are ignored; without its
      slash, or with no argument, the installer installs. */
  lemma DispatchExamples()
    ensures Dispatch(["/UNINSTALL"]) == RollBack && Dispatch(["/Uninstall", "x"]) == RollBack
    ensures Dispatch(["uninstall"]) == Install && Dispatch([]) == Install
  {
    assert Dispatch(["uninstall"]) != RollBack by {
      assert |"uninstall"| != |UninstallFlag|;
    }
  }

  /** The `(source, destination)` pairs of a pending-rename list; a dangling last element
      belongs to no pair. */
  function PairsOf(s: seq<string>): (ps: seq<(string, string)>)
    ensures |ps| == |s| / 2
    decreases |s|
  {
    if |s| < 2 then [] else [(s[0], s[1])] + PairsOf(s[2..])
  }

  /** The pairs whose source does not lie under `basepath`, in their order. */
  function Surviving(ps: seq<(string, string)>, basepath: string): (r: seq<(string, string)>)
    ensures |r| <= |ps|
    ensures forall p :: p in r <==> p in ps && !Contains(p.0, basepath)
    decreases |ps|
  {
    if |ps| == 0 then []
    else if Contains(ps[0].0, basepath) then Surviving(ps[1..], basepath)
    else [ps[0]] + Surviving(ps[1..], basepath)
  }

  /** The filter of `CleanUpPendingDeleteOperations`, one pair at a time: a pair whose
      source contains `basepath` is dropped without looking at its destination; a kept
      dangling source has no destination to read and the index throws. */
  function KeepPairs(values: seq<string>, basepath: string): (r: Result<seq<string>>)
    ensures r.Ok? ==> |r.value| <= |values|
    ensures r.Err? ==> r.fault == IndexOutOfRange
    decreases |values|
  {
    if |values| == 0 then Ok([])
    else if Contains(values[0], basepath) then
      if |values| == 1 then Ok([]) else KeepPairs(values[2..], basepath)
    else if |values| == 1 then Err(IndexOutOfRange)
    else
      var rest :- KeepPairs(values[2..], basepath);
      Ok(values[..2] + rest)
  }

  /** The filter throws exactly for a list of odd length whose last element, a source
      without a destination, is kept. */
  lemma {:induction false} KeepPairsFails(values: seq<string>, basepath: string)
    ensures KeepPairs(values, basepath).Err? <==>
      |values| % 2 == 1 && !Contains(values[|values| - 1], basepath)
    ensures KeepPairs(values, basepath).Err? ==> KeepPairs(values, basepath).fault == IndexOutOfRange
    decreases |values|
  {
    if |values| >= 2 {
      KeepPairsFails(values[2..], basepath);
      if |values| >= 3 {
        assert values[2..][|values| - 3] == values[|values| - 1];
      }
    }
  }

  /** One turn of the filter: a pair whose source lies under `basepath` is dropped, any
      other pair is kept in front of the rest. */
  lemma KeepPairsStep(values: seq<string>, basepath: string)
    requires |values| >= 2 && KeepPairs(values, basepath).Ok?
    ensures KeepPairs(values[2..], basepath).Ok?
    ensures var rest := KeepPairs(values[2..], basepath).value;
            var r := KeepPairs(values, basepath).value;
            && (Contains(values[0], basepath) ==> r == rest)
            && (!Contains(values[0], basepath) ==> r == [values[0], values[1]] + rest)
  {
  }

  /** The pairs of a list starting with a whole pair. */
  lemma PairsOfCons(a: string, b: string, rest: seq<string>)
    ensures PairsOf([a, b] + rest) == [(a, b)] + PairsOf(rest)
  {
    assert ([a, b] + rest)[2..] == rest;
  }

  /** The kept list is made of whole pairs, no longer than the input, and its pairs are
      the surviving pairs of the input in their original order. */
  lemma {:induction false} KeepPairsKeepsSurvivingPairs(values: seq<string>, basepath: string)
    ensures var r := KeepPairs(values, basepath);
      r.Ok? ==> |r.value| % 2 == 0 && |r.value| <= |values|
                && PairsOf(r.value) == Surviving(PairsOf(values), basepath)
    decreases |values|
  {
    var r := KeepPairs(values, basepath);
    if |values| >= 2 && r.Ok? {
      KeepPairsStep(values, basepath);
      KeepPairsKeepsSurvivingPairs(values[2..], basepath);
      var rest := KeepPairs(values[2..], basepath).value;
      assert PairsOf(values) == [(values[0], values[1])] + PairsOf(values[2..]);
      if !Contains(values[0], basepath) {
        PairsOfCons(values[0], values[1], rest);
      }
    }
  }

  /** Filtering what the filter kept keeps it all. */
  lemma {:induction false} KeepPairsIdempotent(values: seq<string>, basepath: string)
    ensures var r := KeepPairs(values, basepath);
      r.Ok? ==> KeepPairs(r.value, basepath) == r
    decreases |values|
  {
    var r := KeepPairs(values, basepath);
    if |values| >= 2 && r.Ok? {
      KeepPairsIdempotent(values[2..], basepath);
      if !Contains(values[0], basepath) {
        var rest := KeepPairs(values[2..], basepath).value;
        assert r.value[2..] == rest;
        assert r.value[0] == values[0];
      }
    }
  }

  /** `Prefixed(d, r)`: the list `d` the loop has already built, in front of what the rest
      of the filter yields. */
  function Prefixed(d: seq<string>, r: Result<seq<string>>): Result<seq<string>> {
    match r
    case Ok(v) => Ok(d + v)
    case Err(f) => Err(f)
  }

  /** Building `d` and then `e` in front of a result builds `d + e` in front of it. */
  lemma PrefixedTwice(d: seq<string>, e: seq<string>, r: Result<seq<string>>)
    ensures Prefixed(d, Prefixed(e, r)) == Prefixed(d + e, r)
    ensures Prefixed([], r) == r
  {
    if r.Ok? {
      assert d + (e + r.value) == (d + e) + r.value;
      assert [] + r.value == r.value;
    }
  }

  /** The elements from `i` on; the loop steps past the end on an odd-length list. */
  function From(values: seq<string>, i: nat): seq<string> {
    if i < |values| then values[i..] else []
  }

  /** The `for (i = 0; i < values.Length; i += 2)` loop as written, with `dest` built in
      place; it computes the pair filter. */
  method FilterPending(values: seq<string>, basepath: string) returns (r: Result<seq<string>>)
    ensures r == KeepPairs(values, basepath)
  {
    var dest: seq<string> := [];
    var i: nat := 0;
    assert From(values, 0) == values;
    PrefixedTwice([], [], KeepPairs(values, basepath));
    while i < |values|
      invariant i % 2 == 0 && (i <= |values| || i == |values| + 1)
      invariant KeepPairs(values, basepath) == Prefixed(dest, KeepPairs(From(values, i), basepath))
      decreases |values| - i
    {
      var rest := values[i..];
      if !Contains(values[i], basepath) {
        if i + 1 >= |values| {
          return Err(IndexOutOfRange);
        }
        assert rest[2..] == From(values, i + 2);
        assert rest[..2] == [values[i], values[i + 1]];
        assert KeepPairs(rest, basepath) == Prefixed(rest[..2], KeepPairs(rest[2..], basepath));
        PrefixedTwice(dest, rest[..2], KeepPairs(rest[2..], basepath));
        dest := dest + [values[i], values[i + 1]];
      } else if i + 1 < |values| {
        assert rest[2..] == From(values, i + 2);
      }
      i := i + 2;
    }
    assert dest + [] == dest;
    return Ok(dest);
  }

  /** What the `Session Manager` registry key holds under `PendingFileRenameOperations`. */
  datatype PendingValue = Absent | NotStrings | StringList(values: seq<string>)

  /** The `Session Manager` key: it may fail to open. */
  datatype SessionKey = Unopened | Opened(pending: PendingValue)

  /** The result of the clean-up, the message it reports, and the list it writes back if it
      writes one. */
  datatype CleanUp = CleanUp(ok: bool, message: string, written: Option<seq<string>>)

  const SubKeyPath: string := "SYSTEM\\CurrentControlSet\\Control\\Session Manager\\"

  const CleanUpFailed: string :=
    "An error occurred cleaning up previous uninstall information to the registry. "
    + "The program might be partially uninstalled on the next reboot."

  /** `CleanUpPendingDeleteOperations`: a key that does not open or a value that is not a
      string list reports failure and writes nothing; otherwise the filtered list is
      written back, unless the filter throws, which is caught and reported as failure. */
  function CleanUpPendingDeleteOperations(key: SessionKey, basepath: string): (r: CleanUp)
    ensures r.ok <==> r.written.Some?
    ensures r.ok ==> r.message == ""
    ensures !r.ok ==> r.message != ""
    ensures r.written.Some? <==>
      key.Opened? && key.pending.StringList? && KeepPairs(key.pending.values, basepath).Ok?
    ensures r.written.Some? ==> Ok(r.written.value) == KeepPairs(key.pending.values, basepath)
  {
    match key
    case Unopened => CleanUp(false, "Sub key path: " + SubKeyPath + " could not be opened.", None)
    case Opened(pending) =>
      match pending
      case StringList(values) =>
        (match KeepPairs(values, basepath)
         case Ok(dest) => CleanUp(true, "", Some(dest))
         case Err(_) => CleanUp(false, CleanUpFailed, None))
      case _ => CleanUp(false, "Key: {keyName} is not a string[] or does not exist.", None)
  }

  /** After a clean-up that writes, no pending rename of a file under `basepath` is left,
      every rename of another file survives with its destination, and cleaning up again
      writes the same list. */
  lemma CleanUpRemovesOnlyOwnRenames(values: seq<string>, basepath: string)
    ensures var r := CleanUpPendingDeleteOperations(Opened(StringList(values)), basepath);
      r.ok ==>
        && (forall p :: p in PairsOf(r.written.value) ==> !Contains(p.0, basepath))
        && (forall p :: p in PairsOf(values) && !Contains(p.0, basepath) ==> p in PairsOf(r.written.value))
        && CleanUpPendingDeleteOperations(Opened(StringList(r.written.value)), basepath) == r
  {
    KeepPairsKeepsSurvivingPairs(values, basepath);
    KeepPairsIdempotent(values, basepath);
  }

  /** A string list cleans up exactly when it has no dangling last element, or the
      dangling element lies under `basepath`; otherwise nothing is written. */
  lemma CleanUpFailsOnlyOnDanglingSource(values: seq<string>, basepath: string)
    ensures var r := CleanUpPendingDeleteOperations(Opened(StringList(values)), basepath);
            && (r.ok <==> |values| % 2 == 0 || Contains(values[|values| - 1], basepath))
            && (!r.ok ==> r.message == CleanUpFailed && r.written == None)
  {
    KeepPairsFails(values, basepath);
  }
}
