/**
 The incremental unity-file packer of cmake/facelift/unity_generator.py: source files are spread
 over units, and a later run keeps what it can of the units of the earlier one.
 */
module UnityPacking {

  import opened Sequences

  const UNIT_INCLUDE_LIMIT := 5

  type File = string

  datatype Unit = Unit(index: int, files: seq<File>, size: nat)

  function Total(size: File -> nat, files: seq<File>): nat {
    if files == [] then 0 else Total(size, files[..|files| - 1]) + size(files[|files| - 1])
  }

  // Unit.can_add_file()
  predicate CanAddFile(u: Unit, fileSize: nat, limit: int) {
    |u.files| == 0 || (|u.files| < UNIT_INCLUDE_LIMIT && fileSize + u.size < limit)
  }

  // What a unit of a finished run looks like.
  predicate Formed(u: Unit, size: File -> nat) {
    1 <= |u.files| <= UNIT_INCLUDE_LIMIT && u.size == Total(size, u.files)
  }

  // A unit within the size limit, which does not apply to a single file.
  predicate Small(u: Unit, limit: int) {
    |u.files| <= 1 || u.size < limit
  }

  function Count(files: seq<File>, f: File): nat {
    if files == [] then 0 else Count(files[..|files| - 1], f) + if files[|files| - 1] == f then 1 else 0
  }

  // How often f occurs in all the units together.
  function Occurrences(units: seq<Unit>, f: File): nat {
    if units == [] then 0 else Occurrences(units[..|units| - 1], f) + Count(units[|units| - 1].files, f)
  }

  predicate Located(units: seq<Unit>, f: File, index: int) {
    exists k :: 0 <= k < |units| && units[k].index == index && f in units[k].files
  }

  predicate DistinctIndices(units: seq<Unit>) {
    forall i, j :: 0 <= i < j < |units| ==> units[i].index != units[j].index
  }

  ghost predicate Packed(units: seq<Unit>, size: File -> nat) {
    DistinctIndices(units) && forall k :: 0 <= k < |units| ==> Formed(units[k], size)
  }

  // The unit of this index exceeds the size limit.
  ghost predicate Overfull(units: seq<Unit>, limit: int, index: int) {
    exists k :: 0 <= k < |units| && units[k].index == index && !Small(units[k], limit)
  }

  // ----- sums and counts

  lemma Append(size: File -> nat, files: seq<File>, f: File)
    ensures Total(size, files + [f]) == Total(size, files) + size(f)
    ensures forall x :: Count(files + [f], x) == Count(files, x) + if f == x then 1 else 0
  {
    assert (files + [f])[..|files|] == files;
  }

  lemma {:induction false} CountMember(files: seq<File>, f: File)
    ensures f in files <==> Count(files, f) > 0
    ensures Count(files, f) == multiset(files)[f]
  {
    if files != [] {
      var n := |files| - 1;
      assert files == files[..n] + [files[n]];
      CountMember(files[..n], f);
    }
  }

  lemma {:induction false} TotalConcat(size: File -> nat, a: seq<File>, b: seq<File>)
    ensures Total(size, a + b) == Total(size, a) + Total(size, b)
  {
    if b == [] {
      assert a + b == a;
    } else {
      TotalConcat(size, a, b[..|b| - 1]);
      assert (a + b)[..|a + b| - 1] == a + b[..|b| - 1];
    }
  }

  lemma SplitAt<T>(s: seq<T>, i: nat)
    requires i < |s|
    ensures s == (s[..i] + [s[i]]) + s[i + 1..]
  {
  }

  lemma TotalWithout(size: File -> nat, files: seq<File>, i: nat)
    requires i < |files|
    ensures Total(size, files) == Total(size, files[..i] + files[i + 1..]) + size(files[i])
  {
    hide *;
    var front, back := files[..i], files[i + 1..];
    SplitAt(files, i);
    TotalConcat(size, front, back);
    TotalConcat(size, front + [files[i]], back);
    Append(size, front, files[i]);
  }

  lemma MultisetWithout(files: seq<File>, i: nat)
    requires i < |files|
    ensures multiset(files[..i] + files[i + 1..]) == multiset(files) - multiset{files[i]}
  {
    SplitAt(files, i);
  }

  // The size of a unit does not depend on the order of its files.
  lemma {:induction false} TotalPermuted(size: File -> nat, a: seq<File>, b: seq<File>)
    requires multiset(a) == multiset(b)
    ensures Total(size, a) == Total(size, b)
  {
    if a == [] {
      assert |multiset(b)| == 0;
    } else {
      var n := |a| - 1;
      assert a[n] in multiset(b);
      var i :| 0 <= i < |b| && b[i] == a[n];
      MultisetWithout(a, n);
      MultisetWithout(b, i);
      assert a[..n] + a[n + 1..] == a[..n];
      TotalWithout(size, b, i);
      TotalPermuted(size, a[..n], b[..i] + b[i + 1..]);
    }
  }

  lemma {:induction false} OccurrencesUpdate(units: seq<Unit>, k: nat, u: Unit, f: File)
    requires k < |units|
    ensures Occurrences(units[k := u], f) + Count(units[k].files, f) == Occurrences(units, f) + Count(u.files, f)
  {
    var n := |units| - 1;
    var units' := units[k := u];
    if k < n {
      OccurrencesUpdate(units[..n], k, u, f);
      assert units'[..n] == units[..n][k := u];
    } else {
      assert units'[..n] == units[..n];
    }
  }

  lemma {:induction false} OccurrencesMember(units: seq<Unit>, f: File)
    ensures Occurrences(units, f) > 0 <==> exists k :: 0 <= k < |units| && f in units[k].files
  {
    if units != [] {
      var n := |units| - 1;
      OccurrencesMember(units[..n], f);
      CountMember(units[n].files, f);
      if k :| 0 <= k < n && f in units[..n][k].files {
        assert f in units[k].files;
      }
      if k :| 0 <= k < |units| && f in units[k].files {
        assert k < n ==> f in units[..n][k].files;
      }
    }
  }

  // ----- removal

  // Unit.remove_files()'s comprehension
  function Kept(files: seq<File>, removed: seq<File>): seq<File> {
    if files == [] then []
    else
      var n := |files| - 1;
      if files[n] in removed then Kept(files[..n], removed) else Kept(files[..n], removed) + [files[n]]
  }

  lemma {:induction false} KeptCount(files: seq<File>, removed: seq<File>, f: File)
    ensures Count(Kept(files, removed), f) == if f in removed then 0 else Count(files, f)
  {
    if files != [] {
      var n := |files| - 1;
      KeptCount(files[..n], removed, f);
      Append(_ => 0, Kept(files[..n], removed), files[n]);
    }
  }

  lemma {:induction false} KeptIsSmaller(size: File -> nat, files: seq<File>, removed: seq<File>)
    ensures Total(size, Kept(files, removed)) <= Total(size, files)
    ensures |Kept(files, removed)| <= |files|
  {
    if files != [] {
      var n := |files| - 1;
      KeptIsSmaller(size, files[..n], removed);
      Append(size, Kept(files[..n], removed), files[n]);
    }
  }

  function RemoveFrom(u: Unit, removed: seq<File>, size: File -> nat): Unit {
    Unit(u.index, Kept(u.files, removed), Total(size, Kept(u.files, removed)))
  }

  // UnitCache.remove_files(): the files go, and the units left empty.
  function Removed(units: seq<Unit>, removed: seq<File>, size: File -> nat): seq<Unit> {
    if units == [] then []
    else
      var n := |units| - 1;
      var u := RemoveFrom(units[n], removed, size);
      if u.files == [] then Removed(units[..n], removed, size) else Removed(units[..n], removed, size) + [u]
  }

  lemma {:induction false} RemovedOccurrences(units: seq<Unit>, removed: seq<File>, size: File -> nat, f: File)
    ensures Occurrences(Removed(units, removed, size), f) == if f in removed then 0 else Occurrences(units, f)
  {
    if units != [] {
      var n := |units| - 1;
      var u := RemoveFrom(units[n], removed, size);
      var before := Removed(units[..n], removed, size);
      RemovedOccurrences(units[..n], removed, size, f);
      KeptCount(units[n].files, removed, f);
      assert (before + [u])[..|before|] == before;
      assert Removed(units, removed, size) == if u.files == [] then before else before + [u];
      assert Occurrences(units, f) == Occurrences(units[..n], f) + Count(units[n].files, f);
      hide Removed, Kept, Total;
    }
  }

  ghost predicate HasIndex(units: seq<Unit>, index: int) {
    exists k :: 0 <= k < |units| && units[k].index == index
  }

  // No unit index is new.
  lemma {:induction false} RemovedIndices(units: seq<Unit>, removed: seq<File>, size: File -> nat, index: int)
    requires HasIndex(Removed(units, removed, size), index)
    ensures HasIndex(units, index)
  {
    var n := |units| - 1;
    var r, before := Removed(units, removed, size), Removed(units[..n], removed, size);
    var k :| 0 <= k < |r| && r[k].index == index;
    if k < |before| {
      assert before[k].index == index;
      RemovedIndices(units[..n], removed, size, index);
      var j :| 0 <= j < n && units[..n][j].index == index;
      assert units[j].index == index;
    } else {
      assert units[n].index == index;
    }
  }

  lemma {:induction false} RemovedPacked(units: seq<Unit>, removed: seq<File>, size: File -> nat)
    requires Packed(units, size)
    ensures Packed(Removed(units, removed, size), size)
  {
    if units != [] {
      var n := |units| - 1;
      var u := RemoveFrom(units[n], removed, size);
      var r, before := Removed(units, removed, size), Removed(units[..n], removed, size);
      assert forall i, j :: 0 <= i < j < n ==> units[i].index != units[j].index;
      RemovedPacked(units[..n], removed, size);
      KeptIsSmaller(size, units[n].files, removed);
      assert Formed(units[n], size);
      assert r == if u.files == [] then before else before + [u];
      assert u.files != [] ==> Formed(u, size);
      hide Removed, Kept, Total, Formed;
      forall i | 0 <= i < |before|
        ensures before[i].index != u.index
      {
        RemovedIndices(units[..n], removed, size, before[i].index);
        var j :| 0 <= j < n && units[..n][j].index == before[i].index;
        assert units[j].index != units[n].index;
      }
    }
  }

  // No unit exceeds the limit that did not before.
  lemma {:induction false} RemovedOverfull(units: seq<Unit>, removed: seq<File>, size: File -> nat, limit: int,
                                           index: int)
    requires forall k :: 0 <= k < |units| ==> Formed(units[k], size)
    requires Overfull(Removed(units, removed, size), limit, index)
    ensures Overfull(units, limit, index)
  {
    var n := |units| - 1;
    var r, before := Removed(units, removed, size), Removed(units[..n], removed, size);
    var k :| 0 <= k < |r| && r[k].index == index && !Small(r[k], limit);
    if k < |before| {
      assert before[k] == r[k];
      RemovedOverfull(units[..n], removed, size, limit, index);
      var j :| 0 <= j < n && units[..n][j].index == index && !Small(units[..n][j], limit);
      assert units[j] == units[..n][j];
    } else {
      assert r[k] == RemoveFrom(units[n], removed, size) && Formed(units[n], size);
      KeptIsSmaller(size, units[n].files, removed);
      assert !Small(units[n], limit);
    }
  }

  lemma {:induction false} RemovedKeepsPlace(units: seq<Unit>, removed: seq<File>, size: File -> nat, f: File,
                                             index: int)
    requires Located(units, f, index) && f !in removed
    ensures Located(Removed(units, removed, size), f, index)
  {
    var n := |units| - 1;
    var r, before := Removed(units, removed, size), Removed(units[..n], removed, size);
    var u := RemoveFrom(units[n], removed, size);
    assert r == if u.files == [] then before else before + [u];
    var k :| 0 <= k < |units| && units[k].index == index && f in units[k].files;
    if k < n {
      assert units[..n][k] == units[k];
      RemovedKeepsPlace(units[..n], removed, size, f, index);
      hide Removed, Kept, Total;
      var i :| 0 <= i < |before| && before[i].index == index && f in before[i].files;
      assert r[i] == before[i];
    } else {
      KeptCount(units[n].files, removed, f);
      CountMember(units[n].files, f);
      CountMember(u.files, f);
      hide Removed, Kept, Total, Count;
      assert r[|before|] == u;
    }
  }

  // ----- addition

  // A unit that keeps its index and its files keeps every file's place.
  lemma GrowthKeepsPlace(units: seq<Unit>, k: nat, u: Unit, f: File, index: int)
    requires k < |units| && u.index == units[k].index && units[k].files <= u.files
    requires Located(units, f, index)
    ensures Located(units[k := u], f, index)
  {
    var j :| 0 <= j < |units| && units[j].index == index && f in units[j].files;
    assert units[k := u][j].index == index && f in units[k := u][j].files;
  }

  lemma NewUnitKeepsPlace(units: seq<Unit>, u: Unit, f: File, index: int)
    requires Located(units, f, index)
    ensures Located(units + [u], f, index)
  {
    var j :| 0 <= j < |units| && units[j].index == index && f in units[j].files;
    assert (units + [u])[j] == units[j];
  }

  // A unit that takes the place of one with its index exceeds the limit only if that one did.
  lemma UpdateOverfull(units: seq<Unit>, k: nat, u: Unit, limit: int, index: int)
    requires k < |units| && u.index == units[k].index && (Small(units[k], limit) ==> Small(u, limit))
    requires Overfull(units[k := u], limit, index)
    ensures Overfull(units, limit, index)
  {
    var j :| 0 <= j < |units| && units[k := u][j].index == index && !Small(units[k := u][j], limit);
    assert units[j].index == index && !Small(units[j], limit);
  }

  lemma NewUnitOverfull(units: seq<Unit>, u: Unit, limit: int, index: int)
    requires Small(u, limit) && Overfull(units + [u], limit, index)
    ensures Overfull(units, limit, index)
  {
    var j :| 0 <= j < |units + [u]| && (units + [u])[j].index == index && !Small((units + [u])[j], limit);
    assert units[j].index == index && !Small(units[j], limit);
  }

  // ----- how files are packed

  // A unit that takes no further file of this size: it has five files, or would reach the limit.
  predicate Full(u: Unit, fileSize: nat, limit: int) {
    |u.files| >= 5 || (u.files != [] && u.size + fileSize >= limit)
  }

  // The files of the units from position `from` on, unit by unit.
  function FilesFrom(units: seq<Unit>, from: nat): seq<File> {
    if |units| <= from then [] else FilesFrom(units[..|units| - 1], from) + units[|units| - 1].files
  }

  /** How `start` was extended by `files`, of which the first went into the unit at `first`: the other
      units are untouched; all files are added in order; units that were started follow each other
      by index, and each was started because the one before was full for its first file. */
  ghost predicate Extended(start: seq<Unit>, first: nat, units: seq<Unit>, files: seq<File>,
                           size: File -> nat, limit: int)
    requires first < |start|
  {
    && OnlyOneGrew(start, first, units)
    && AddedInOrder(start, first, units, files)
    && forall k :: |start| <= k < |units| ==> StartedAfter(start, first, units, k, size, limit)
  }

  ghost predicate OnlyOneGrew(start: seq<Unit>, first: nat, units: seq<Unit>)
    requires first < |start|
  {
    && |start| <= |units|
    && (forall k :: 0 <= k < |start| && k != first ==> units[k] == start[k])
    && units[first].index == start[first].index && start[first].files <= units[first].files
  }

  ghost predicate AddedInOrder(start: seq<Unit>, first: nat, units: seq<Unit>, files: seq<File>)
    requires first < |start| && OnlyOneGrew(start, first, units)
  {
    units[first].files[|start[first].files|..] + FilesFrom(units, |start|) == files
  }

  // The unit at position k was started when the one before it was full.
  ghost predicate StartedAfter(start: seq<Unit>, first: nat, units: seq<Unit>, k: nat, size: File -> nat, limit: int)
    requires first < |start| <= k < |units|
  {
    var before := units[if k == |start| then first else k - 1];
    && units[k].index == before.index + 1
    && units[k].files != [] && Full(before, size(units[k].files[0]), limit)
  }

  // The unit in use.
  function Current(start: seq<Unit>, first: nat, units: seq<Unit>): nat {
    if |units| <= |start| then first else |units| - 1
  }

  lemma NotExtendedYet(start: seq<Unit>, first: nat, size: File -> nat, limit: int)
    requires first < |start|
    ensures Extended(start, first, start, [], size, limit)
  {
  }

  function WithFile(u: Unit, file: File, size: File -> nat): Unit {
    Unit(u.index, u.files + [file], u.size + size(file))
  }

  lemma FilesFromGrows(units: seq<Unit>, from: nat, u: Unit, file: File)
    requires from < |units| && u.files == units[|units| - 1].files + [file]
    ensures FilesFrom(units[|units| - 1 := u], from) == FilesFrom(units, from) + [file]
  {
    assert units[|units| - 1 := u][..|units| - 1] == units[..|units| - 1];
  }

  lemma FilesFromAppend(units: seq<Unit>, from: nat, u: Unit)
    requires from <= |units|
    ensures FilesFrom(units + [u], from) == FilesFrom(units, from) + u.files
  {
    assert (units + [u])[..|units|] == units;
  }

  lemma FileAdded(start: seq<Unit>, first: nat, units: seq<Unit>, files: seq<File>, file: File, size: File -> nat)
    requires first < |start| && OnlyOneGrew(start, first, units) && AddedInOrder(start, first, units, files)
    ensures var k := Current(start, first, units);
            var units' := units[k := WithFile(units[k], file, size)];
            OnlyOneGrew(start, first, units') && AddedInOrder(start, first, units', files + [file])
  {
    var k := Current(start, first, units);
    var units' := units[k := WithFile(units[k], file, size)];
    var added, later := units[first].files[|start[first].files|..], FilesFrom(units, |start|);
    if |units| > |start| {
      FilesFromGrows(units, |start|, units'[k], file);
      hide FilesFrom;
      assert added + (later + [file]) == (added + later) + [file];
    } else {
      assert later == FilesFrom(units', |start|) == [];
      hide FilesFrom;
      assert units'[first].files[|start[first].files|..] == added + [file];
      assert added + later == added && (added + [file]) + [] == added + [file];
    }
  }

  lemma ExtendedByFile(start: seq<Unit>, first: nat, units: seq<Unit>, files: seq<File>, file: File,
                       size: File -> nat, limit: int)
    requires first < |start| && Extended(start, first, units, files, size, limit)
    ensures var k := Current(start, first, units);
            Extended(start, first, units[k := WithFile(units[k], file, size)], files + [file], size, limit)
  {
    var k := Current(start, first, units);
    var units' := units[k := WithFile(units[k], file, size)];
    FileAdded(start, first, units, files, file, size);
    forall j | |start| <= j < |units'|
      ensures StartedAfter(start, first, units', j, size, limit)
    {
      hide AddedInOrder, OnlyOneGrew, Full;
      assert StartedAfter(start, first, units, j, size, limit);
    }
  }

  lemma UnitAdded(start: seq<Unit>, first: nat, units: seq<Unit>, files: seq<File>, u: Unit)
    requires first < |start| && OnlyOneGrew(start, first, units) && AddedInOrder(start, first, units, files)
    ensures OnlyOneGrew(start, first, units + [u]) && AddedInOrder(start, first, units + [u], files + u.files)
  {
    var added, later := units[first].files[|start[first].files|..], FilesFrom(units, |start|);
    FilesFromAppend(units, |start|, u);
    hide FilesFrom;
    assert added + (later + u.files) == (added + later) + u.files;
  }

  lemma ExtendedByUnit(start: seq<Unit>, first: nat, units: seq<Unit>, files: seq<File>, file: File,
                       size: File -> nat, limit: int)
    requires first < |start| && Extended(start, first, units, files, size, limit)
    requires Full(units[Current(start, first, units)], size(file), limit)
    ensures var index := units[Current(start, first, units)].index + 1;
            Extended(start, first, units + [Unit(index, [file], size(file))], files + [file], size, limit)
  {
    var u := Unit(units[Current(start, first, units)].index + 1, [file], size(file));
    UnitAdded(start, first, units, files, u);
    forall j | |start| <= j < |units + [u]|
      ensures StartedAfter(start, first, units + [u], j, size, limit)
    {
      hide AddedInOrder, OnlyOneGrew, Full;
      if j < |units| {
        assert StartedAfter(start, first, units, j, size, limit);
      }
    }
  }

  lemma {:induction false} FilesFromBegins(units: seq<Unit>, from: nat)
    requires from < |units|
    ensures units[from].files <= FilesFrom(units, from)
  {
    var n := |units| - 1;
    if from < n {
      FilesFromBegins(units[..n], from);
    } else {
      assert FilesFrom(units[..n], from) == [];
    }
  }

  lemma TotalPrefix(size: File -> nat, files: seq<File>, n: nat)
    requires n <= |files|
    ensures Total(size, files[..n]) <= Total(size, files)
  {
    assert files == files[..n] + files[n..];
    TotalConcat(size, files[..n], files[n..]);
  }

  // The size of a unit and of what was added to it, up to the first file of the next one
  lemma NextFileFits(size: File -> nat, before: seq<File>, added: seq<File>, rest: seq<File>)
    requires rest != []
    ensures Total(size, before + added) + size(rest[0]) <= Total(size, before) + Total(size, added + rest)
  {
    hide Total;
    TotalConcat(size, before, added);
    assert (added + rest)[..|added| + 1] == added + [rest[0]];
    Append(size, added, rest[0]);
    TotalPrefix(size, added + rest, |added| + 1);
  }

  /** No unit is started when all the files fit into the last one. */
  lemma NoneStartedWithoutNeed(start: seq<Unit>, first: nat, units: seq<Unit>, files: seq<File>,
                               size: File -> nat, limit: int)
    requires first < |start| && Extended(start, first, units, files, size, limit)
    requires start[first].size == Total(size, start[first].files)
    requires units[first].size == Total(size, units[first].files)
    requires |start[first].files| + |files| <= 5 && start[first].size + Total(size, files) < limit
    ensures |units| == |start|
  {
    if |units| > |start| {
      var before, after := start[first].files, units[first].files;
      var added, rest := after[|before|..], FilesFrom(units, |start|);
      assert StartedAfter(start, first, units, |start|, size, limit);
      FilesFromBegins(units, |start|);
      assert files == added + rest;
      hide FilesFrom, Extended, AddedInOrder, Total;
      assert rest[0] == units[|start|].files[0] && after == before + added;
      NextFileFits(size, before, added, rest);
    }
  }

  // ----- from one run to the next

  // UnitCache.from_json(): indices and files are read back, sizes are computed anew.
  function Loaded(cached: seq<(int, seq<File>)>, size: File -> nat): (r: seq<Unit>)
    ensures |r| == |cached|
  {
    seq(|cached|, k requires 0 <= k < |cached| => Unit(cached[k].0, cached[k].1, Total(size, cached[k].1)))
  }

  // What json.dump() keeps of the units and from_json() reads.
  function Saved(units: seq<Unit>): (r: seq<(int, seq<File>)>)
    ensures |r| == |units|
  {
    seq(|units|, k requires 0 <= k < |units| => (units[k].index, units[k].files))
  }

  lemma {:induction false} SavedOccurrences(units: seq<Unit>, size: File -> nat, f: File)
    ensures Occurrences(Loaded(Saved(units), size), f) == Occurrences(units, f)
  {
    if units != [] {
      var n := |units| - 1;
      SavedOccurrences(units[..n], size, f);
      assert Loaded(Saved(units), size)[..n] == Loaded(Saved(units[..n]), size);
    }
  }

  /** Whatever became of the files and of the size limit in between, the units of a run meet what
      the next one relies on, with the same files at the same indices. */
  lemma NextRunMayStart(units: seq<Unit>, size: File -> nat, newSize: File -> nat)
    requires Packed(units, size)
    ensures var loaded := Loaded(Saved(units), newSize);
            && Packed(loaded, newSize)
            && (forall f :: Occurrences(loaded, f) == Occurrences(units, f))
            && (forall f, index :: Located(loaded, f, index) <==> Located(units, f, index))
  {
    var loaded := Loaded(Saved(units), newSize);
    assert forall k :: 0 <= k < |units| ==>
      Formed(units[k], size) && loaded[k].files == units[k].files && loaded[k].index == units[k].index;
    forall f {
      SavedOccurrences(units, newSize, f);
    }
    forall f, index
      ensures Located(loaded, f, index) <==> Located(units, f, index)
    {
      if k :| 0 <= k < |units| && units[k].index == index && f in units[k].files {
        assert loaded[k].index == index && f in loaded[k].files;
      }
      if k :| 0 <= k < |loaded| && loaded[k].index == index && f in loaded[k].files {
        assert units[k].index == index && f in units[k].files;
      }
    }
  }

  // ----- a run

  class UnitCache {
    var units: seq<Unit>
    const limit: int             // unit_size_limit
    const size: File -> nat      // os.path.getsize(), 0 for what is no file

    constructor (limit: int, size: File -> nat)
      ensures units == [] && this.limit == limit && this.size == size
    {
      this.units, this.limit, this.size := [], limit, size;
    }

    constructor FromJson(cached: seq<(int, seq<File>)>, limit: int, size: File -> nat)
      ensures units == Loaded(cached, size) && this.limit == limit && this.size == size
    {
      this.limit, this.size, this.units := limit, size, [];
      new;
      for k := 0 to |cached|
        invariant this.limit == limit && this.size == size && units == Loaded(cached, size)[..k]
      {
        var total := UpdateSize(cached[k].1);
        units := units + [Unit(cached[k].0, cached[k].1, total)];
      }
    }

    // file_list()
    method FileList() returns (files: seq<File>)
      ensures forall f :: f in files <==> Occurrences(units, f) > 0
    {
      files := [];
      for k := 0 to |units|
        invariant forall f :: f in files <==> exists j :: 0 <= j < k && f in units[j].files
      {
        files := files + units[k].files;
      }
      forall f {
        OccurrencesMember(units, f);
      }
    }

    // Unit.remove_files()
    method KeepFiles(u: Unit, files: seq<File>) returns (r: Unit)
      ensures r == RemoveFrom(u, files, size)
    {
      var list := [];
      for i := 0 to |u.files|
        invariant list == Kept(u.files[..i], files)
      {
        assert u.files[..i + 1][..i] == u.files[..i];
        if u.files[i] !in files {
          list := list + [u.files[i]];
        }
      }
      assert u.files[..|u.files|] == u.files;
      var total := UpdateSize(list);
      r := Unit(u.index, list, total);
    }

    method RemoveFiles(files: seq<File>)
      modifies this`units
      ensures units == Removed(old(units), files, size)
    {
      var kept: seq<Unit> := [];
      for k := 0 to |units|
        invariant units == old(units) && kept == Removed(units[..k], files, size)
      {
        assert units[..k + 1][..k] == units[..k];
        var u := KeepFiles(units[k], files);
        if |u.files| > 0 {
          kept := kept + [u];
        }
      }
      assert units[..|units|] == units;
      units := kept;
    }

    // update_size()
    method UpdateSize(files: seq<File>) returns (total: nat)
      ensures total == Total(size, files)
    {
      total := 0;
      for i := 0 to |files|
        invariant total == Total(size, files[..i])
      {
        assert files[..i + 1][..i] == files[..i];
        total := total + size(files[i]);
      }
      assert files[..|files|] == files;
    }

    // last_unit(): the position of the unit with the greatest index, in a new unit if there is none
    method LastUnit() returns (last: nat)
      requires DistinctIndices(units)
      modifies this`units
      ensures units == if old(units) == [] then [Unit(1, [], 0)] else old(units)
      ensures last < |units| && forall k :: 0 <= k < |units| ==> units[k].index <= units[last].index
    {
      if |units| == 0 {
        units := [Unit(1, [], 0)];
      }
      last := 0;
      for k := 1 to |units|
        invariant last < |units| && units == if old(units) == [] then [Unit(1, [], 0)] else old(units)
        invariant forall j :: 0 <= j < k ==> units[j].index <= units[last].index
      {
        if units[k].index > units[last].index {
          last := k;
        }
      }
    }

    // All units are well formed, except that the last one may still be empty.
    ghost predicate Filling(last: nat)
      reads this
    {
      && last < |units| && DistinctIndices(units)
      && (forall k :: 0 <= k < |units| ==> units[k].index <= units[last].index)
      && (forall k :: 0 <= k < |units| ==>
            Formed(units[k], size) || (k == last && units[k].files == [] && units[k].size == 0))
    }

    // The start of a further unit
    method NewUnit(last: nat) returns (next: nat)
      requires Filling(last)
      requires Formed(units[last], size)
      modifies this`units
      ensures Filling(next) && units == old(units) + [Unit(old(units)[last].index + 1, [], 0)] && next == |units| - 1
    {
      units := units + [Unit(units[last].index + 1, [], 0)];
      next := |units| - 1;
    }

    // Unit.add_file()
    method Put(file: File, k: nat)
      requires Filling(k) && CanAddFile(units[k], size(file), limit)
      modifies this`units
      ensures Filling(k) && Formed(units[k], size)
      ensures forall f :: Occurrences(units, f) == Occurrences(old(units), f) + if f == file then 1 else 0
      ensures forall f, index :: Located(old(units), f, index) ==> Located(units, f, index)
      ensures forall index :: Overfull(units, limit, index) ==> Overfull(old(units), limit, index)
      ensures var u := old(units)[k];
              units == old(units)[k := Unit(u.index, u.files + [file], u.size + size(file))]
    {
      ghost var before := units;
      var u := Unit(units[k].index, units[k].files + [file], units[k].size + size(file));
      Append(size, units[k].files, file);
      units := units[k := u];
      forall f
        ensures Occurrences(units, f) == Occurrences(before, f) + if f == file then 1 else 0
      {
        OccurrencesUpdate(before, k, u, f);
      }
      forall f, index | Located(before, f, index)
        ensures Located(units, f, index)
      {
        GrowthKeepsPlace(before, k, u, f, index);
      }
      forall index | Overfull(units, limit, index)
        ensures Overfull(before, limit, index)
      {
        UpdateOverfull(before, k, u, limit, index);
      }
    }

    // One turn of the loop of add_files()
    method AddFile(file: File, last: nat) returns (next: nat)
      requires Filling(last)
      modifies this`units
      ensures Filling(next) && Formed(units[next], size)
      ensures forall f :: Occurrences(units, f) == Occurrences(old(units), f) + if f == file then 1 else 0
      ensures forall f, index :: Located(old(units), f, index) ==> Located(units, f, index)
      ensures forall index :: Overfull(units, limit, index) ==> Overfull(old(units), limit, index)
      ensures var u := old(units)[last];
              if Full(u, size(file), limit) then
                next == |old(units)| && units == old(units) + [Unit(u.index + 1, [file], size(file))]
              else
                next == last && units == old(units)[last := Unit(u.index, u.files + [file], u.size + size(file))]
    {
      hide Occurrences, Located, Overfull;
      next := last;
      if !CanAddFile(units[last], size(file), limit) {
        next := NewUnit(last);
        ghost var before, u := old(units), units[next];
        assert units == before + [u];
        forall f, index | Located(before, f, index)
          ensures Located(before + [u], f, index)
        {
          NewUnitKeepsPlace(before, u, f, index);
        }
        forall f {
          EmptyUnitAddsNothing(before, u, f);
        }
        forall index | Overfull(before + [u], limit, index)
          ensures Overfull(before, limit, index)
        {
          NewUnitOverfull(before, u, limit, index);
        }
      }
      Put(file, next);
    }

    // The loop of add_files()
    method FillUnits(files: seq<File>, first: nat) returns (last: nat)
      requires Filling(first)
      modifies this`units
      ensures Filling(last) && (files != [] ==> Formed(units[last], size))
      ensures forall f :: Occurrences(units, f) == Occurrences(old(units), f) + Count(files, f)
      ensures forall f, index :: Located(old(units), f, index) ==> Located(units, f, index)
      ensures forall index :: Overfull(units, limit, index) ==> Overfull(old(units), limit, index)
      ensures Extended(old(units), first, units, files, size, limit)
    {
      hide Occurrences, Located, Formed, Overfull, Extended, Full;
      last := first;
      NotExtendedYet(units, first, size, limit);
      for i := 0 to |files|
        invariant Filling(last) && last < |units| && (i > 0 ==> Formed(units[last], size))
        invariant forall f :: Occurrences(units, f) == Occurrences(old(units), f) + Count(files[..i], f)
        invariant forall f, index :: Located(old(units), f, index) ==> Located(units, f, index)
        invariant forall index :: Overfull(units, limit, index) ==> Overfull(old(units), limit, index)
        invariant |old(units)| <= |units| && last == Current(old(units), first, units)
        invariant Extended(old(units), first, units, files[..i], size, limit)
      {
        assert files[..i + 1][..i] == files[..i];
        assert files[..i + 1] == files[..i] + [files[i]];
        ExtendedByFile(old(units), first, units, files[..i], files[i], size, limit);
        if Full(units[last], size(files[i]), limit) {
          ExtendedByUnit(old(units), first, units, files[..i], files[i], size, limit);
        }
        last := AddFile(files[i], last);
      }
      assert files[..|files|] == files;
    }

    /** add_files(): the files are added in order to the unit with the greatest index, or a new one,
        and a further unit is started exactly when the one in use is full for the next file. */
    method AddFiles(files: seq<File>) returns (ghost first: nat)
      requires Packed(units, size) && files != []
      modifies this`units
      ensures Packed(units, size)
      ensures forall f :: Occurrences(units, f) == Occurrences(old(units), f) + Count(files, f)
      ensures forall f, index :: Located(old(units), f, index) ==> Located(units, f, index)
      ensures forall index :: Overfull(units, limit, index) ==> Overfull(old(units), limit, index)
      ensures var start := if old(units) == [] then [Unit(1, [], 0)] else old(units);
              && first < |start| && (forall k :: 0 <= k < |start| ==> start[k].index <= start[first].index)
              && Extended(start, first, units, files, size, limit)
              && (|start[first].files| + |files| <= 5 && start[first].size + Total(size, files) < limit ==>
                    |units| == |start|)
    {
      var last := LastUnit();
      assert forall f :: Occurrences(units, f) == Occurrences(old(units), f);
      first := last;
      ghost var start := units;
      last := FillUnits(files, last);
      assert Formed(units[first], size);
      if |start[first].files| + |files| <= 5 && start[first].size + Total(size, files) < limit {
        NoneStartedWithoutNeed(start, first, units, files, size, limit);
      }
    }

    // The members of `files` that are not in `others`, as run_generation() collects them
    method Difference(files: seq<File>, others: seq<File>) returns (r: seq<File>)
      ensures r == Kept(files, others)
    {
      r := [];
      for i := 0 to |files|
        invariant r == Kept(files[..i], others)
      {
        assert files[..i + 1][..i] == files[..i];
        if files[i] !in others {
          r := r + [files[i]];
        }
      }
      assert files[..|files|] == files;
    }

    // generate(): sorts the files of every unit; `sort` stands for Python's list.sort()
    method SortFiles(sort: seq<File> -> seq<File>)
      requires forall s :: multiset(sort(s)) == multiset(s)
      requires Packed(units, size)
      modifies this`units
      ensures Packed(units, size)
      ensures forall f :: Occurrences(units, f) == Occurrences(old(units), f)
      ensures forall f, index :: Located(old(units), f, index) ==> Located(units, f, index)
      ensures forall index :: Overfull(units, limit, index) ==> Overfull(old(units), limit, index)
    {
      for k := 0 to |units|
        invariant Packed(units, size) && |units| == |old(units)|
        invariant forall f :: Occurrences(units, f) == Occurrences(old(units), f)
        invariant forall f, index :: Located(old(units), f, index) ==> Located(units, f, index)
        invariant forall index :: Overfull(units, limit, index) ==> Overfull(old(units), limit, index)
      {
        var u := units[k].(files := sort(units[k].files));
        ghost var before := units;
        units := units[k := u];
        SortedUnit(before, k, u, size, limit);
      }
    }

    /** run_generation(): every requested file ends up in exactly one unit and no other file in any;
        units have distinct indices and at most five files each; a file that was there before and is
        requested again stays in the unit of its index; and a unit exceeds the size limit only if the
        one of its index did when the run began, which needs a file or the limit to have changed. */
    method RunGeneration(files: seq<File>, sort: seq<File> -> seq<File>)
      requires forall s :: multiset(sort(s)) == multiset(s)
      requires Distinct(files)
      requires Packed(units, size) && forall f :: Occurrences(units, f) <= 1
      modifies this`units
      ensures Packed(units, size)
      ensures forall f :: Occurrences(units, f) == if f in files then 1 else 0
      ensures forall f, index :: Located(old(units), f, index) && f in files ==> Located(units, f, index)
      ensures forall index :: Overfull(units, limit, index) ==> Overfull(old(units), limit, index)
    {
      var cachedFiles := FileList();
      var toRemove := Difference(cachedFiles, files);
      var toAdd := Difference(files, cachedFiles);
      ghost var was := units;
      if |toRemove| > 0 {
        RemoveFiles(toRemove);
        RemovedPacked(was, toRemove, size);
        forall index | Overfull(units, limit, index)
          ensures Overfull(was, limit, index)
        {
          RemovedOverfull(was, toRemove, size, limit, index);
        }
      }
      ghost var kept := units;
      forall f
        ensures Occurrences(kept, f) == if f in files then Occurrences(was, f) else 0
        ensures Count(toAdd, f) == if f in files && Occurrences(was, f) == 0 then 1 else 0
      {
        Divided(was, kept, cachedFiles, files, size, f);
      }
      forall f, index | Located(was, f, index) && f in files
        ensures Located(kept, f, index)
      {
        KeptMember(cachedFiles, files, f);
        if |toRemove| > 0 {
          RemovedKeepsPlace(was, toRemove, size, f, index);
        }
      }
      if |toAdd| > 0 {
        ghost var _ := AddFiles(toAdd);
      }
      SortFiles(sort);
    }
  }

  lemma KeptMember(files: seq<File>, removed: seq<File>, f: File)
    ensures f in Kept(files, removed) <==> f in files && f !in removed
  {
    KeptCount(files, removed, f);
    CountMember(files, f);
    CountMember(Kept(files, removed), f);
  }

  lemma {:induction false} DistinctCount(files: seq<File>, f: File)
    requires Distinct(files)
    ensures Count(files, f) == if f in files then 1 else 0
  {
    if files != [] {
      var n := |files| - 1;
      DistinctCount(files[..n], f);
      CountMember(files[..n], f);
      assert f in files <==> f in files[..n] || f == files[n];
    }
  }

  // What the two differences of a run amount to, for one file.
  lemma Divided(was: seq<Unit>, kept: seq<Unit>, cached: seq<File>, files: seq<File>, size: File -> nat, f: File)
    requires Distinct(files) && (f in cached <==> Occurrences(was, f) > 0)
    requires kept == if Kept(cached, files) == [] then was else Removed(was, Kept(cached, files), size)
    ensures Occurrences(kept, f) == if f in files then Occurrences(was, f) else 0
    ensures Count(Kept(files, cached), f) == if f in files && Occurrences(was, f) == 0 then 1 else 0
  {
    KeptMember(cached, files, f);
    KeptMember(files, cached, f);
    RemovedOccurrences(was, Kept(cached, files), size, f);
    DistinctCount(files, f);
    KeptCount(files, cached, f);
  }

  // Reordering the files of a unit changes nothing that matters.
  lemma SortedUnit(units: seq<Unit>, k: nat, u: Unit, size: File -> nat, limit: int)
    requires k < |units| && Packed(units, size)
    requires u.index == units[k].index && u.size == units[k].size && multiset(u.files) == multiset(units[k].files)
    ensures Packed(units[k := u], size)
    ensures forall f :: Occurrences(units[k := u], f) == Occurrences(units, f)
    ensures forall f, index :: Located(units, f, index) ==> Located(units[k := u], f, index)
    ensures forall index :: Overfull(units[k := u], limit, index) ==> Overfull(units, limit, index)
  {
    forall index | Overfull(units[k := u], limit, index)
      ensures Overfull(units, limit, index)
    {
      assert |u.files| == |multiset(u.files)| == |units[k].files|;
      UpdateOverfull(units, k, u, limit, index);
    }
    TotalPermuted(size, u.files, units[k].files);
    assert |u.files| == |multiset(u.files)| == |units[k].files|;
    forall f
      ensures Occurrences(units[k := u], f) == Occurrences(units, f)
    {
      OccurrencesUpdate(units, k, u, f);
      CountMember(u.files, f);
      CountMember(units[k].files, f);
    }
    forall f, index | Located(units, f, index)
      ensures Located(units[k := u], f, index)
    {
      var j :| 0 <= j < |units| && units[j].index == index && f in units[j].files;
      assert f in multiset(units[j].files);
      assert units[k := u][j].index == index && f in units[k := u][j].files;
    }
  }

  lemma EmptyUnitAddsNothing(units: seq<Unit>, u: Unit, f: File)
    requires u.files == []
    ensures Occurrences(units + [u], f) == Occurrences(units, f)
  {
    assert (units + [u])[..|units|] == units;
  }
}
