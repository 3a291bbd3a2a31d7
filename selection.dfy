/** The list of chosen files (`selectedFiles`): files are added without
    repeating a `name|size|lastModified` key, removed by index with the
    semantics of `Array.prototype.splice(idx, 1)`, or all cleared. The chip
    list drawn from it is not modelled. */
module Selection {
  import opened Common
  import opened Text

  /** What the page reads of a browser `File`. */
  datatype FileRef = FileRef(name: string, size: nat, lastModified: nat)

  /** `fileKey(f)`: `${f.name}|${f.size}|${f.lastModified}`. */
  function FileKey(f: FileRef): (r: string)
    ensures f.name + "|" <= r
  {
    f.name + "|" + NatToString(f.size) + "|" + NatToString(f.lastModified)
  }

  lemma DigitsHaveNoBar(n: nat)
    ensures '|' !in NatToString(n)
  {
    var s := NatToString(n);
    assert forall i :: 0 <= i < |s| ==> IsDigit(s[i]);
  }

  /** Two files share a key only when name, size and date all agree: the last
      two fields are digits, so the key is read back from its end even when
      the name itself holds a `|`. */
  lemma FileKeyInjective(f: FileRef, g: FileRef)
    requires FileKey(f) == FileKey(g)
    ensures f == g
  {
    DigitsHaveNoBar(f.size);
    DigitsHaveNoBar(g.size);
    DigitsHaveNoBar(f.lastModified);
    DigitsHaveNoBar(g.lastModified);
    var fs, gs := NatToString(f.size), NatToString(g.size);
    var fm, gm := NatToString(f.lastModified), NatToString(g.lastModified);
    assert (f.name + "|" + fs) + ['|'] + fm == (g.name + "|" + gs) + ['|'] + gm;
    LastFieldUnique(f.name + "|" + fs, fm, g.name + "|" + gs, gm, '|');
    assert f.name + ['|'] + fs == g.name + ['|'] + gs;
    LastFieldUnique(f.name, fs, g.name, gs, '|');
    NatToStringInjective(f.size, g.size);
    NatToStringInjective(f.lastModified, g.lastModified);
  }

  /** Some file of the list has this key. */
  predicate KeyIn(files: seq<FileRef>, key: string) {
    exists i :: 0 <= i < |files| && FileKey(files[i]) == key
  }

  /** No key occurs twice. */
  predicate DistinctKeys(files: seq<FileRef>) {
    forall i, j :: 0 <= i < j < |files| ==> FileKey(files[i]) != FileKey(files[j])
  }

  /** Distinct keys amount to distinct files. */
  lemma DistinctKeysDistinctFiles(files: seq<FileRef>)
    ensures DistinctKeys(files) <==> forall i, j :: 0 <= i < j < |files| ==> files[i] != files[j]
  {
    forall i, j | 0 <= i < j < |files| && FileKey(files[i]) == FileKey(files[j])
      ensures files[i] == files[j]
    {
      FileKeyInjective(files[i], files[j]);
    }
  }

  /** `selectedFiles.some(x => fileKey(x) === key)`. */
  method SomeHasKey(files: seq<FileRef>, key: string) returns (found: bool)
    ensures found <==> KeyIn(files, key)
  {
    found := false;
    var i := 0;
    while i < |files|
      invariant 0 <= i <= |files|
      invariant !found ==> forall k :: 0 <= k < i ==> FileKey(files[k]) != key
      invariant found ==> KeyIn(files, key)
    {
      if FileKey(files[i]) == key {
        found := true;
        return;
      }
      i := i + 1;
    }
  }

  /** The list after a batch is added: each file of the batch, in order, is
      appended unless a file with its key is already there (from before or
      from earlier in the same batch). */
  function AppendNew(files: seq<FileRef>, batch: seq<FileRef>): seq<FileRef>
    decreases |batch|
  {
    if batch == [] then files
    else
      var before := AppendNew(files, batch[..|batch| - 1]);
      var f := batch[|batch| - 1];
      if KeyIn(before, FileKey(f)) then before else before + [f]
  }

  /** Adding keeps the selected files in place and in order. */
  lemma {:induction false} AppendNewPrefix(files: seq<FileRef>, batch: seq<FileRef>)
    ensures files <= AppendNew(files, batch)
    decreases |batch|
  {
    if batch != [] {
      AppendNewPrefix(files, batch[..|batch| - 1]);
    }
  }

  lemma KeyInAppend(files: seq<FileRef>, f: FileRef, key: string)
    ensures KeyIn(files + [f], key) <==> KeyIn(files, key) || FileKey(f) == key
  {
    if KeyIn(files, key) {
      var i :| 0 <= i < |files| && FileKey(files[i]) == key;
      assert (files + [f])[i] == files[i];
    }
    if FileKey(f) == key {
      assert (files + [f])[|files|] == f;
    }
    if KeyIn(files + [f], key) {
      var i :| 0 <= i < |files + [f]| && FileKey((files + [f])[i]) == key;
      if i < |files| {
        assert (files + [f])[i] == files[i];
      }
    }
  }

  /** Adding never repeats a key. */
  lemma {:induction false} AppendNewDistinct(files: seq<FileRef>, batch: seq<FileRef>)
    requires DistinctKeys(files)
    ensures DistinctKeys(AppendNew(files, batch))
    decreases |batch|
  {
    if batch != [] {
      var before := AppendNew(files, batch[..|batch| - 1]);
      var f := batch[|batch| - 1];
      AppendNewDistinct(files, batch[..|batch| - 1]);
      if !KeyIn(before, FileKey(f)) {
        var after := before + [f];
        forall i, j | 0 <= i < j < |after|
          ensures FileKey(after[i]) != FileKey(after[j])
        {
          if j == |before| {
            assert after[i] == before[i];
          } else {
            assert after[i] == before[i] && after[j] == before[j];
          }
        }
      }
    }
  }

  /** After adding, every key of the old list and of the batch is selected, and
      every selected file was there before or comes from the batch. */
  lemma {:induction false} AppendNewCovers(files: seq<FileRef>, batch: seq<FileRef>)
    ensures forall k :: 0 <= k < |batch| ==> KeyIn(AppendNew(files, batch), FileKey(batch[k]))
    ensures forall k :: 0 <= k < |files| ==> KeyIn(AppendNew(files, batch), FileKey(files[k]))
    ensures forall x :: x in AppendNew(files, batch) ==> x in files || x in batch
    decreases |batch|
  {
    var r := AppendNew(files, batch);
    if batch == [] {
      forall k | 0 <= k < |files|
        ensures KeyIn(r, FileKey(files[k]))
      {
        assert FileKey(r[k]) == FileKey(files[k]);
      }
    } else {
      var init := batch[..|batch| - 1];
      var before := AppendNew(files, init);
      var f := batch[|batch| - 1];
      AppendNewCovers(files, init);
      KeyInAppend(before, f, FileKey(f));
      forall key | KeyIn(before, key)
        ensures KeyIn(r, key)
      {
        KeyInAppend(before, f, key);
      }
      forall k | 0 <= k < |batch|
        ensures KeyIn(r, FileKey(batch[k]))
      {
        if k < |init| {
          assert batch[k] == init[k];
        }
      }
      forall x | x in r
        ensures x in files || x in batch
      {
        if x in before {
          assert forall y :: y in init ==> y in batch;
        }
      }
    }
  }

  /** A batch whose keys are all selected changes nothing. */
  lemma {:induction false} AppendNewKnown(files: seq<FileRef>, batch: seq<FileRef>)
    requires forall k :: 0 <= k < |batch| ==> KeyIn(files, FileKey(batch[k]))
    ensures AppendNew(files, batch) == files
    decreases |batch|
  {
    if batch != [] {
      var init := batch[..|batch| - 1];
      assert forall k :: 0 <= k < |init| ==> init[k] == batch[k];
      AppendNewKnown(files, init);
    }
  }

  /** Adding the same batch twice is adding it once. */
  lemma AppendNewIdempotent(files: seq<FileRef>, batch: seq<FileRef>)
    ensures AppendNew(AppendNew(files, batch), batch) == AppendNew(files, batch)
  {
    AppendNewCovers(files, batch);
    AppendNewKnown(AppendNew(files, batch), batch);
  }

  /** Where `splice(idx, 1)` starts: a negative index counts from the end,
      and an index past either end is clamped to it. */
  function SpliceStart(idx: int, len: nat): (s: nat)
    ensures s <= len
    ensures 0 <= idx < len ==> s == idx
    ensures idx < 0 && len + idx >= 0 ==> s == len + idx
    ensures idx >= len ==> s == len
  {
    if idx < 0 then (if len + idx < 0 then 0 else len + idx)
    else if idx > len then len else idx
  }

  /** The list after `splice(idx, 1)`. */
  function RemoveAt(files: seq<FileRef>, idx: int): (r: seq<FileRef>)
    ensures var s := SpliceStart(idx, |files|);
            && (s < |files| ==> |r| == |files| - 1 && r == files[..s] + files[s + 1..])
            && (s == |files| ==> r == files)
  {
    var s := SpliceStart(idx, |files|);
    if s < |files| then files[..s] + files[s + 1..] else files
  }

  /** Removing keeps the other files in their order and repeats no key. */
  lemma RemoveAtSubsequence(files: seq<FileRef>, idx: int)
    requires DistinctKeys(files)
    ensures DistinctKeys(RemoveAt(files, idx))
    ensures forall x :: x in RemoveAt(files, idx) ==> x in files
    ensures 0 <= idx < |files| ==> !KeyIn(RemoveAt(files, idx), FileKey(files[idx]))
  {
    var s := SpliceStart(idx, |files|);
    var r := RemoveAt(files, idx);
    if s < |files| {
      assert forall k :: 0 <= k < |r| ==> r[k] == if k < s then files[k] else files[k + 1];
      if 0 <= idx < |files| {
        assert forall k :: 0 <= k < |r| ==> FileKey(r[k]) != FileKey(files[idx]);
      }
    }
  }

  /** The page's `selectedFiles`. */
  class FileSelection {
    var selectedFiles: seq<FileRef>

    /** No two selected files share a key. */
    predicate Valid()
      reads this
    {
      DistinctKeys(selectedFiles)
    }

    constructor ()
      ensures Valid() && selectedFiles == []
    {
      selectedFiles := [];
    }

    /** `addFiles(filesLike)`: a missing list (`filesLike || []`) adds
        nothing; `added` counts the files that were new. */
    method AddFiles(filesLike: Option<seq<FileRef>>) returns (added: nat)
      requires Valid()
      modifies this
      ensures Valid()
      ensures selectedFiles == AppendNew(old(selectedFiles), filesLike.GetOr([]))
      ensures old(selectedFiles) <= selectedFiles
      ensures added == |selectedFiles| - |old(selectedFiles)|
    {
      var list := filesLike.GetOr([]);
      added := 0;
      for i := 0 to |list|
        invariant selectedFiles == AppendNew(old(selectedFiles), list[..i])
        invariant |selectedFiles| == |old(selectedFiles)| + added
      {
        assert list[..i + 1][..i] == list[..i];
        var f := list[i];
        var key := FileKey(f);
        var known := SomeHasKey(selectedFiles, key);
        if !known {
          selectedFiles := selectedFiles + [f];
          added := added + 1;
        }
      }
      assert list[..|list|] == list;
      AppendNewDistinct(old(selectedFiles), list);
      AppendNewPrefix(old(selectedFiles), list);
    }

    /** `removeFileByIndex(idx)` and the mobile chip's own
        `selectedFiles.splice(i, 1)`. */
    method RemoveFileByIndex(idx: int)
      requires Valid()
      modifies this
      ensures Valid()
      ensures selectedFiles == RemoveAt(old(selectedFiles), idx)
    {
      RemoveAtSubsequence(selectedFiles, idx);
      var s := SpliceStart(idx, |selectedFiles|);
      if s < |selectedFiles| {
        selectedFiles := selectedFiles[..s] + selectedFiles[s + 1..];
      }
    }

    /** `clearSelected()`. */
    method ClearSelected()
      modifies this
      ensures Valid() && selectedFiles == []
    {
      selectedFiles := [];
    }
  }
}
