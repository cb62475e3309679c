/**
 * The renaming tool for the images of the older rasterizer: the eighth
 * character of every name (the letter after the latitude digits) and
 * everything after the twelfth are dropped, so that "e000n05f.img" becomes
 * "e000n05.img".
 */
module ShapefileRenamer {
  import opened JavaLang
  import LegacyRasterizer

  /** The new name: `substring(0, 7) + substring(8, 12)`. */
  function NewName(oldName: string): (r: Result<string>)
    ensures r.Ok? <==> |oldName| >= 12
    ensures r.Err? ==> r.error == IndexOutOfBounds
    ensures r.Ok? ==> |r.value| == 11
    ensures r.Ok? ==> forall i :: 0 <= i < 7 ==> r.value[i] == oldName[i]
    ensures r.Ok? ==> forall i :: 7 <= i < 11 ==> r.value[i] == oldName[i + 1]
  {
    var firstPart :- Substring(oldName, 0, 7);
    var secondPart :- Substring(oldName, 8, 12);
    Ok(firstPart + secondPart)
  }

  lemma NewNameExample()
    ensures NewName("e000n05f.img") == Ok("e000n05.img")
  {
    var oldName := "e000n05f.img";
    assert oldName[0..7] + oldName[8..12] == "e000n05.img";
  }

  /** A renamed name is too short to be renamed again. */
  lemma RenamedOnce(oldName: string)
    requires NewName(oldName).Ok?
    ensures NewName(NewName(oldName).value) == Err(IndexOutOfBounds)
  {
  }

  /** Renaming keeps the tile: the digit fields sit in front of the dropped character. */
  lemma RenameKeepsEnvelope(oldName: string)
    requires NewName(oldName).Ok?
    ensures LegacyRasterizer.LegacyEnvelope(NewName(oldName).value) == LegacyRasterizer.LegacyEnvelope(oldName)
  {
    var newName := NewName(oldName).value;
    assert newName[1..4] == oldName[1..4];
    assert newName[5..7] == oldName[5..7];
  }

  /** The older rasterizer's image of "e000n05f.zip" is renamed to "e000n05.img". */
  lemma RenamesLegacyOutput()
    ensures NewName(LegacyRasterizer.OutputName("e000n05f.zip")) == Ok("e000n05.img")
  {
    LegacyRasterizer.OutputNameExample();
    NewNameExample();
  }

  /**
   * What renaming the listed files does when `renames(old, new)` says
   * whether `File.renameTo` succeeds: the names after renaming, and the
   * exception that stopped the loop, if any. The first name too short to
   * cut, or the first rename that fails, stops the loop; the names before it
   * are renamed and the rest are left as they were.
   */
  function RenameAll(names: seq<string>, renames: (string, string) -> bool): (r: (Result<()>, seq<string>))
    ensures |r.1| == |names|
  {
    if |names| == 0 then (Ok(()), [])
    else
      match NewName(names[0])
      case Err(e) => (Err(e), names)
      case Ok(newName) =>
        if !renames(names[0], newName) then (Err(IllegalState), names)
        else
          var rest := RenameAll(names[1..], renames);
          (rest.0, [newName] + rest.1)
  }

  /** Whether the file `name` is renamed without an exception. */
  predicate Renamable(name: string, renames: (string, string) -> bool) {
    NewName(name).Ok? && renames(name, NewName(name).value)
  }

  /** Index of the first file whose renaming throws, or the length when none does. */
  function FirstFailure(names: seq<string>, renames: (string, string) -> bool): (k: nat)
    ensures k <= |names|
    ensures forall i :: 0 <= i < k ==> Renamable(names[i], renames)
    ensures k < |names| ==> !Renamable(names[k], renames)
  {
    if |names| == 0 || !Renamable(names[0], renames) then 0
    else 1 + FirstFailure(names[1..], renames)
  }

  /**
   * The loop stops at the first failing file: it succeeds exactly when no file
   * fails; the files before the failing one carry their new names and the
   * failing file and all after it keep their old names; the exception says why.
   */
  lemma {:induction false} RenameAllSpec(names: seq<string>, renames: (string, string) -> bool)
    ensures var r := RenameAll(names, renames); var k := FirstFailure(names, renames);
      && (r.0.Ok? <==> k == |names|)
      && (forall i :: 0 <= i < k ==> r.1[i] == NewName(names[i]).value)
      && (forall i :: k <= i < |names| ==> r.1[i] == names[i])
      && (k < |names| && |names[k]| < 12 ==> r.0 == Err(IndexOutOfBounds))
      && (k < |names| && |names[k]| >= 12 ==> r.0 == Err(IllegalState))
  {
    if |names| > 0 && Renamable(names[0], renames) {
      RenameAllSpec(names[1..], renames);
      var r := RenameAll(names, renames);
      var k := FirstFailure(names, renames);
      forall i | 1 <= i < |names|
        ensures r.1[i] == RenameAll(names[1..], renames).1[i - 1] && names[i] == names[1..][i - 1]
      {
      }
    }
  }

  /** The loop's exit at file i: what it has renamed so far is the final name list. */
  lemma RenameStops(names: seq<string>, files: seq<string>, i: nat, renames: (string, string) -> bool)
    requires i < |files| && |names| == |files| && names[i..] == files[i..]
    requires !Renamable(files[i], renames)
    ensures RenameAll(files[i..], renames).1 == files[i..]
    ensures NewName(files[i]).Err? ==> RenameAll(files[i..], renames).0 == Err(NewName(files[i]).error)
    ensures NewName(files[i]).Ok? ==> RenameAll(files[i..], renames).0 == Err(IllegalState)
    ensures names[..i] + RenameAll(files[i..], renames).1 == names
  {
    assert names == names[..i] + names[i..];
  }

  /** One renamed file more: the loop invariant moves from i to i + 1. */
  lemma RenameGoesOn(before: seq<string>, after: seq<string>, files: seq<string>, i: nat, renames: (string, string) -> bool)
    requires i < |files| && |before| == |files| && before[i..] == files[i..]
    requires Renamable(files[i], renames)
    requires after == before[i := NewName(files[i]).value]
    ensures after[i + 1..] == files[i + 1..]
    ensures RenameAll(files[i..], renames).0 == RenameAll(files[i + 1..], renames).0
    ensures before[..i] + RenameAll(files[i..], renames).1 == after[..i + 1] + RenameAll(files[i + 1..], renames).1
  {
    assert files[i..][1..] == files[i + 1..];
    var rest := RenameAll(files[i + 1..], renames);
    assert RenameAll(files[i..], renames) == (rest.0, [NewName(files[i]).value] + rest.1);
    assert after[..i + 1] == before[..i] + [NewName(files[i]).value];
    assert after[i + 1..] == before[i + 1..];
  }

  /** The directory being renamed, as the list of its file names. */
  class Directory {
    var names: seq<string>

    constructor (names: seq<string>)
      ensures this.names == names
    {
      this.names := names;
    }

    /**
     * `renameFiles`: renames the listed files one after another and stops
     * with the first exception.
     */
    method RenameFiles(renames: (string, string) -> bool) returns (r: Result<()>)
      modifies this
      ensures (r, names) == RenameAll(old(names), renames)
    {
      var files := names;
      var i := 0;
      assert files[0..] == files;
      assert names[..0] + RenameAll(files, renames).1 == RenameAll(files, renames).1;
      while i < |files|
        invariant 0 <= i <= |files| && |names| == |files|
        invariant RenameAll(files, renames) == (RenameAll(files[i..], renames).0, names[..i] + RenameAll(files[i..], renames).1)
        invariant names[i..] == files[i..]
      {
        var oldName := files[i];
        var newName := NewName(oldName);
        if newName.Err? || !renames(oldName, newName.value) {
          RenameStops(names, files, i, renames);
          r := if newName.Err? then Err(newName.error) else Err(IllegalState);
          assert RenameAll(files, renames) == (r, names);
          return;
        }
        ghost var before := names;
        names := names[i := newName.value];
        RenameGoesOn(before, names, files, i, renames);
        i := i + 1;
      }
      assert files[i..] == [] && names[..i] == names;
      assert RenameAll(files[i..], renames) == (Ok(()), []);
      assert names[..i] + RenameAll(files[i..], renames).1 == names;
      r := Ok(());
      assert RenameAll(files, renames) == (r, names);
    }
  }
}
