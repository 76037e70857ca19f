/** The rotating file sink: what one rotation does to the disk, and what survives over a whole run. */
module RotatingSink {
  import opened Options
  import opened Numerals

  type Disk = map<string, string>

  /** The base name itself, or the base name with `.index` behind it. */
  function CalcFilename(base: string, index: nat): string {
    if index == 0 then base else base + "." + Decimal(index)
  }

  /** `log`, `log.1`, `log.2` and so on. */
  lemma FilenameIs(base: string, i: nat)
    ensures i == 0 ==> CalcFilename(base, i) == base
    ensures i > 0 ==> CalcFilename(base, i) == base + ['.'] + Decimal(i)
    ensures CalcFilename("log.txt", 1) == "log.txt.1"
  {
    assert Decimal(1) == "1";
  }

  lemma FilenamesDistinct(base: string, i: nat, j: nat)
    requires i != j
    ensures CalcFilename(base, i) != CalcFilename(base, j)
  {
    if i > 0 && j > 0 && CalcFilename(base, i) == CalcFilename(base, j) {
      var a, b := CalcFilename(base, i), CalcFilename(base, j);
      assert Decimal(i) == a[|base| + 1..] && Decimal(j) == b[|base| + 1..];
      DecimalInjective(i, j);
      assert false;
    }
  }

  function File(disk: Disk, base: string, i: nat): Option<string> {
    var name := CalcFilename(base, i);
    if name in disk then Some(disk[name]) else None
  }

  /** The numbered files `0..=maxFiles`, newest first. */
  function Files(disk: Disk, base: string, maxFiles: nat): (fs: seq<Option<string>>)
    ensures |fs| == maxFiles + 1
  {
    seq(maxFiles + 1, i requires 0 <= i => File(disk, base, i))
  }

  ghost predicate OthersUntouched(before: Disk, after: Disk, base: string, maxFiles: nat) {
    forall name | (forall i | 0 <= i <= maxFiles :: name != CalcFilename(base, i)) ::
      (name in before <==> name in after) && (name in before ==> before[name] == after[name])
  }

  const OPEN_TRIES := 5

  /**
   * The operating system's answers while one message is being written. Opening fails the first
   * `openFailures` times it is tried; a short write stops after some characters.
   */
  datatype Faults = Faults(
    removeFails: string -> bool, renameFails: (string, string) -> bool, openFailures: nat, shortWrite: Option<nat>)

  datatype Outcome = Done | RemoveFailed | RenameFailed | OpenFailed | WriteFailed

  /** Nothing fails that is not tried again with success. */
  ghost predicate NoFaults(f: Faults) {
    && (forall n :: !f.removeFails(n)) && (forall m, n :: !f.renameFails(m, n))
    && f.openFailures < OPEN_TRIES && f.shortWrite == None
  }

  class RotatingFileSink {
    const baseFilename: string
    const maxSize: nat
    const maxFiles: nat
    var currentSize: nat
    var isOpen: bool
    var disk: Disk

    /** A closed file means a rotation is still due; an open one is on the disk. */
    ghost predicate Valid()
      reads this
    {
      if isOpen then baseFilename in disk else currentSize > maxSize
    }

    /** The running size is the size of the open file. */
    ghost predicate Exact()
      reads this
    {
      isOpen && baseFilename in disk && currentSize == |disk[baseFilename]|
    }

    ghost function View(): seq<Option<string>>
      reads this
    {
      Files(disk, baseFilename, maxFiles)
    }

    /** The constructor proper; `Create` is where it opens the file, or throws. */
    constructor (baseFilename: string, maxSize: nat, maxFiles: nat, disk: Disk)
      ensures this.baseFilename == baseFilename && this.maxSize == maxSize && this.maxFiles == maxFiles
      ensures this.disk == disk && !isOpen && currentSize == 0
    {
      this.baseFilename := baseFilename;
      this.maxSize := maxSize;
      this.maxFiles := maxFiles;
      this.disk := disk;
      isOpen := false;
      currentSize := 0;
    }

    /** Opens the base file for appending, creating it if need be; fails if all tries do. */
    static method Create(baseFilename: string, maxSize: nat, maxFiles: nat, disk: Disk, openFailures: nat)
      returns (r: Option<RotatingFileSink>)
      ensures r.Some? <==> openFailures < OPEN_TRIES
      ensures r.Some? ==>
        && fresh(r.value) && r.value.Valid() && r.value.Exact() && r.value.baseFilename == baseFilename
        && r.value.maxSize == maxSize && r.value.maxFiles == maxFiles
        && r.value.disk == if baseFilename in disk then disk else disk[baseFilename := ""]
    {
      var sink := new RotatingFileSink(baseFilename, maxSize, maxFiles, disk);
      var ok := sink.Open(false, openFailures);
      if !ok {
        return None;
      }
      sink.currentSize := |sink.disk[baseFilename]|;
      return Some(sink);
    }

    /** Tries to open file 0 a few times, emptying it if asked to. */
    method Open(truncate: bool, openFailures: nat) returns (ok: bool)
      requires !isOpen
      modifies this`disk, this`isOpen
      ensures ok <==> openFailures < 5
      ensures !ok ==> disk == old(disk) && !isOpen
      ensures ok ==>
        isOpen && disk == if truncate || baseFilename !in old(disk) then old(disk)[baseFilename := ""] else old(disk)
    {
      var tries := 0;
      while tries < OPEN_TRIES
        invariant tries <= openFailures && tries <= OPEN_TRIES && disk == old(disk) && !isOpen
      {
        if tries >= openFailures {
          if truncate || baseFilename !in disk {
            disk := disk[baseFilename := ""];
          }
          isOpen := true;
          return true;
        }
        tries := tries + 1;
      }
      return false;
    }

    method RemoveFile(name: string)
      modifies this`disk
      ensures disk == old(disk) - {name}
    {
      disk := disk - {name};
    }

    method RenameFile(source: string, target: string)
      requires source in disk && source != target
      modifies this`disk
      ensures disk == (old(disk) - {source})[target := old(disk)[source]]
    {
      disk := (disk - {source})[target := disk[source]];
    }

    /** Files above `i` hold what their predecessors held; `i` itself is vacated; the rest is as before. */
    ghost predicate ShiftedAbove(before: Disk, i: nat)
      reads this
    {
      && i <= maxFiles
      && (forall k | i < k <= maxFiles :: File(disk, baseFilename, k) == File(before, baseFilename, k - 1))
      && (i < maxFiles ==> File(disk, baseFilename, i) == None)
      && (forall k | 0 <= k < i :: File(disk, baseFilename, k) == File(before, baseFilename, k))
      && (i == maxFiles ==> disk == before)
      && OthersUntouched(before, disk, baseFilename, maxFiles)
    }

    /** File `i` is out of the way: what a rotation given up at `i` leaves, with only the oldest file lost. */
    ghost predicate Cleared(before: Disk, i: nat)
      reads this
    {
      && i <= maxFiles
      && (forall k | i < k <= maxFiles :: File(disk, baseFilename, k) == File(before, baseFilename, k - 1))
      && File(disk, baseFilename, i) == None
      && (forall k | 0 <= k < i :: File(disk, baseFilename, k) == File(before, baseFilename, k))
      && OthersUntouched(before, disk, baseFilename, maxFiles)
    }

    /** Only the oldest file is ever in the way, so a failed remove changes nothing. */
    method ClearTarget(i: nat, f: Faults, ghost before: Disk) returns (r: Outcome)
      requires 1 <= i <= maxFiles && ShiftedAbove(before, i)
      modifies this`disk
      ensures r.Done? || r.RemoveFailed?
      ensures if r.Done? then Cleared(before, i) else disk == before
      ensures NoFaults(f) ==> r.Done?
    {
      var target := CalcFilename(baseFilename, i);
      if target in disk {
        if f.removeFails(target) {
          return RemoveFailed;
        }
        RemoveEffect(before, disk, baseFilename, maxFiles, i);
        RemoveFile(target);
      }
      return Done;
    }

    method MoveUp(i: nat, f: Faults, ghost before: Disk) returns (r: Outcome)
      requires 1 <= i <= maxFiles && Cleared(before, i)
      modifies this`disk
      ensures r.Done? || r.RenameFailed?
      ensures if r.Done? then ShiftedAbove(before, i - 1) else Cleared(before, i)
      ensures NoFaults(f) ==> r.Done?
    {
      var source := CalcFilename(baseFilename, i - 1);
      var target := CalcFilename(baseFilename, i);
      if source in disk {
        if f.renameFails(source, target) {
          return RenameFailed;
        }
        RenameEffect(before, disk, baseFilename, maxFiles, i);
        FilenamesDistinct(baseFilename, i - 1, i);
        RenameFile(source, target);
      }
      return Done;
    }

    /** One turn of the loop: clear the target, then move its predecessor there. */
    method ShiftOne(i: nat, f: Faults, ghost before: Disk) returns (r: Outcome)
      requires 1 <= i <= maxFiles && ShiftedAbove(before, i)
      modifies this`disk
      ensures r.Done? || r.RemoveFailed? || r.RenameFailed?
      ensures r.Done? ==> ShiftedAbove(before, i - 1)
      ensures r.RemoveFailed? ==> disk == before
      ensures r.RenameFailed? ==> Cleared(before, i)
      ensures NoFaults(f) ==> r.Done?
    {
      r := ClearTarget(i, f, before);
      if r.Done? {
        r := MoveUp(i, f, before);
      }
    }

    /** What a rotation that fails has done to the disk. */
    ghost predicate GivenUp(r: Outcome, before: Disk)
      reads this
    {
      match r
      case RemoveFailed => disk == before
      case RenameFailed => exists i :: 1 <= i && Cleared(before, i)
      case OpenFailed => ShiftedAbove(before, 0)
      case _ => false
    }

    /**
     * Closes file 0, shifts every file one up and opens a fresh file 0. A rotation that fails on the
     * way leaves the file closed and everything but possibly the oldest file on the disk.
     */
    method Rotate(f: Faults) returns (r: Outcome)
      modifies this`disk, this`isOpen
      ensures r.Done? ==> isOpen && View() == Rotated(old(View())) && baseFilename in disk && disk[baseFilename] == ""
      ensures !r.Done? ==> !isOpen && GivenUp(r, old(disk))
      ensures OthersUntouched(old(disk), disk, baseFilename, maxFiles)
      ensures NoFaults(f) ==> r.Done?
    {
      ghost var before := disk;
      isOpen := false;
      var i := maxFiles;
      while i > 0
        invariant ShiftedAbove(before, i) && !isOpen
      {
        var shifted := ShiftOne(i, f, before);
        if !shifted.Done? {
          return shifted;
        }
        i := i - 1;
      }
      FreshFileZero(before, disk, baseFilename, maxFiles);
      var ok := Open(true, f.openFailures);
      if !ok {
        return OpenFailed;
      }
      assert View() == Rotated(Files(before, baseFilename, maxFiles));
      return Done;
    }

    /**
     * Writes one message, rotating first if it would overflow the file. A failed rotation leaves the
     * message unwritten and the rotation due; a short write leaves the front of the message.
     */
    method SinkIt(msg: string, f: Faults) returns (r: Outcome)
      requires Valid()
      modifies this`disk, this`isOpen, this`currentSize
      ensures Valid() && OthersUntouched(old(disk), disk, baseFilename, maxFiles)
      ensures r.Done? && old(Exact()) ==>
        Exact() && View() == Sunk(old(View()), old(currentSize), msg, maxSize)
      ensures r.Done? && old(isOpen) ==> View() == Sunk(old(View()), old(currentSize), msg, maxSize)
      ensures r.Done? || r.WriteFailed? ==>
        currentSize == if old(currentSize) + |msg| > maxSize then |msg| else old(currentSize) + |msg|
      ensures r.Done? && !old(isOpen) ==> Exact() && View() == Appended(Rotated(old(View())), msg)
      ensures !r.Done? && !r.WriteFailed? ==>
        !isOpen && GivenUp(r, old(disk)) && currentSize == old(currentSize) + |msg| > maxSize
      ensures r.WriteFailed? ==>
        && isOpen && f.shortWrite.Some? && f.shortWrite.value < |msg|
        && View() == Appended(if old(currentSize) + |msg| > maxSize then Rotated(old(View())) else old(View()),
                              msg[..f.shortWrite.value])
      ensures NoFaults(f) ==> r.Done?
    {
      currentSize := currentSize + |msg|;
      if currentSize > maxSize {
        var rotated := Rotate(f);
        if !rotated.Done? {
          return rotated;
        }
        currentSize := |msg|;
      }
      ghost var files := View();
      var text := match f.shortWrite case Some(n) => msg[..if n < |msg| then n else |msg|] case None => msg;
      OnlyFileZero(disk, baseFilename, maxFiles, disk[baseFilename] + text);
      disk := disk[baseFilename := disk[baseFilename] + text];
      assert View() == Appended(files, text);
      if |text| != |msg| {
        return WriteFailed;
      }
      assert text == msg;
      return Done;
    }

    /** A run of messages, with nothing failing for good: the files are those of the specification. */
    method SinkAll(msgs: seq<string>, f: Faults)
      requires Valid() && Exact() && NoFaults(f)
      modifies this`disk, this`isOpen, this`currentSize
      ensures Valid() && Exact() && View() == SunkAll(old(View()), msgs, maxSize)
    {
      ghost var files := View();
      for i := 0 to |msgs|
        invariant Valid() && Exact() && View() == SunkAll(files, msgs[..i], maxSize)
      {
        assert msgs[..i + 1][..i] == msgs[..i];
        assert Bytes(View()[0]) == disk[baseFilename];
        var r := SinkIt(msgs[i], f);
      }
      assert msgs[..|msgs|] == msgs;
    }
  }

  lemma RemoveEffect(before: Disk, disk: Disk, base: string, maxFiles: nat, i: nat)
    requires i <= maxFiles && OthersUntouched(before, disk, base, maxFiles)
    ensures var after := disk - {CalcFilename(base, i)};
      && File(after, base, i) == None
      && (forall k: nat | k <= maxFiles && k != i :: File(after, base, k) == File(disk, base, k))
      && OthersUntouched(before, after, base, maxFiles)
  {
    var after := disk - {CalcFilename(base, i)};
    forall k: nat | k <= maxFiles && k != i ensures File(after, base, k) == File(disk, base, k) {
      FilenamesDistinct(base, k, i);
    }
  }

  lemma RenameEffect(before: Disk, disk: Disk, base: string, maxFiles: nat, i: nat)
    requires 1 <= i <= maxFiles && OthersUntouched(before, disk, base, maxFiles)
    requires CalcFilename(base, i - 1) in disk
    ensures var source, target := CalcFilename(base, i - 1), CalcFilename(base, i);
      var after := (disk - {source})[target := disk[source]];
      && File(after, base, i) == File(disk, base, i - 1) && File(after, base, i - 1) == None
      && (forall k: nat | k <= maxFiles && k != i && k != i - 1 :: File(after, base, k) == File(disk, base, k))
      && OthersUntouched(before, after, base, maxFiles)
  {
    var source, target := CalcFilename(base, i - 1), CalcFilename(base, i);
    var after := (disk - {source})[target := disk[source]];
    FilenamesDistinct(base, i - 1, i);
    forall k: nat | k <= maxFiles && k != i && k != i - 1 ensures File(after, base, k) == File(disk, base, k) {
      FilenamesDistinct(base, k, i);
      FilenamesDistinct(base, k, i - 1);
    }
  }

  lemma BaseIsFileZero(base: string, maxFiles: nat)
    ensures CalcFilename(base, 0) == base
    ensures forall i | 1 <= i <= maxFiles :: CalcFilename(base, i) != base
  {
    forall i | 1 <= i <= maxFiles ensures CalcFilename(base, i) != base {
      FilenamesDistinct(base, 0, i);
    }
  }

  lemma OnlyFileZero(disk: Disk, base: string, maxFiles: nat, text: string)
    ensures Files(disk[base := text], base, maxFiles) == Files(disk, base, maxFiles)[0 := Some(text)]
    ensures OthersUntouched(disk, disk[base := text], base, maxFiles)
  {
    BaseIsFileZero(base, maxFiles);
    var after := disk[base := text];
    forall i | 0 <= i <= maxFiles
      ensures Files(after, base, maxFiles)[i] == Files(disk, base, maxFiles)[0 := Some(text)][i]
    {
      assert i > 0 ==> CalcFilename(base, i) != base;
    }
  }

  lemma FreshFileZero(before: Disk, disk: Disk, base: string, maxFiles: nat)
    requires forall k | 0 < k <= maxFiles :: File(disk, base, k) == File(before, base, k - 1)
    requires OthersUntouched(before, disk, base, maxFiles)
    ensures Files(disk[base := ""], base, maxFiles) == Rotated(Files(before, base, maxFiles))
    ensures OthersUntouched(before, disk[base := ""], base, maxFiles)
  {
    OnlyFileZero(disk, base, maxFiles, "");
    var a, b := Files(disk[base := ""], base, maxFiles), Rotated(Files(before, base, maxFiles));
    forall i | 0 <= i <= maxFiles ensures a[i] == b[i] {
      if i > 0 {
        assert File(disk, base, i) == File(before, base, i - 1);
      }
    }
    forall name | (forall i | 0 <= i <= maxFiles :: name != CalcFilename(base, i))
      ensures (name in before <==> name in disk[base := ""]) && (name in before ==> before[name] == disk[base := ""][name])
    {
      assert name != CalcFilename(base, 0);
    }
  }

  // ---- one message, by its effect on the numbered files -----------------------------------------

  /** File `i` becomes file `i + 1`, the last one goes, and file 0 starts empty. */
  function Rotated(files: seq<Option<string>>): (r: seq<Option<string>>)
    requires |files| >= 1
    ensures |r| == |files|
  {
    [Some("")] + files[..|files| - 1]
  }

  function Appended(files: seq<Option<string>>, msg: string): (r: seq<Option<string>>)
    requires |files| >= 1
    ensures |r| == |files|
  {
    files[0 := Some(Bytes(files[0]) + msg)]
  }

  function Bytes(file: Option<string>): string {
    if file.Some? then file.value else ""
  }

  function Sunk(files: seq<Option<string>>, size: nat, msg: string, maxSize: nat): (r: seq<Option<string>>)
    requires |files| >= 1
    ensures |r| == |files|
  {
    Appended(if size + |msg| > maxSize then Rotated(files) else files, msg)
  }

  // ---- runs --------------------------------------------------------------------------------------

  /** The numbered files as lists of whole pieces: what was there at the start, then messages. */
  type Pieces = seq<string>

  datatype Log = Log(files: seq<Pieces>, rotations: nat)

  function Flatten(ps: Pieces): string {
    if ps == [] then "" else Flatten(ps[..|ps| - 1]) + ps[|ps| - 1]
  }

  function Initial(files: seq<Option<string>>): (l: Log)
    ensures |l.files| == |files|
  {
    Log(seq(|files|, i requires 0 <= i < |files| => if files[i].Some? then [files[i].value] else []), 0)
  }

  function Record(l: Log, msg: string, maxSize: nat): (r: Log)
    requires |l.files| >= 1
    ensures |r.files| == |l.files|
  {
    if |Flatten(l.files[0])| + |msg| > maxSize then Log([[msg]] + l.files[..|l.files| - 1], l.rotations + 1)
    else l.(files := l.files[0 := l.files[0] + [msg]])
  }

  function RecordAll(l: Log, msgs: seq<string>, maxSize: nat): (r: Log)
    requires |l.files| >= 1
    ensures |r.files| == |l.files|
  {
    if msgs == [] then l else Record(RecordAll(l, msgs[..|msgs| - 1], maxSize), msgs[|msgs| - 1], maxSize)
  }

  /** All pieces, oldest file first. */
  function History(files: seq<Pieces>): Pieces {
    if files == [] then [] else History(files[1..]) + files[0]
  }

  ghost predicate IsSuffix(a: Pieces, b: Pieces) {
    |a| <= |b| && b[|b| - |a|..] == a
  }

  /** The pieces account for the bytes of every file that exists. */
  ghost predicate Describes(l: Log, files: seq<Option<string>>) {
    |l.files| == |files| && forall i | 0 <= i < |files| :: Flatten(l.files[i]) == Bytes(files[i])
  }

  lemma InitialDescribes(files: seq<Option<string>>)
    ensures Describes(Initial(files), files)
  {
    forall i | 0 <= i < |files| ensures Flatten(Initial(files).files[i]) == Bytes(files[i]) {
      FlattenOne(Bytes(files[i]));
    }
  }

  lemma FlattenOne(p: string)
    ensures Flatten([p]) == p
  {
    assert [p][..0] == [];
    assert "" + p == p;
  }

  /** Writing a message keeps the pieces in step with the bytes. */
  lemma RecordDescribes(l: Log, files: seq<Option<string>>, msg: string, maxSize: nat)
    requires |files| >= 1 && files[0].Some? && Describes(l, files)
    ensures Describes(Record(l, msg, maxSize), Sunk(files, |Bytes(files[0])|, msg, maxSize))
    ensures Sunk(files, |Bytes(files[0])|, msg, maxSize)[0].Some?
  {
    FlattenOne(msg);
    assert "" + msg == msg;
    assert (l.files[0] + [msg])[..|l.files[0]|] == l.files[0];
  }

  /** The files after a run of messages, as `SinkIt` leaves them one by one. */
  function SunkAll(files: seq<Option<string>>, msgs: seq<string>, maxSize: nat): (r: seq<Option<string>>)
    requires |files| >= 1
    ensures |r| == |files|
  {
    if msgs == [] then files
    else
      var before := SunkAll(files, msgs[..|msgs| - 1], maxSize);
      Sunk(before, |Bytes(before[0])|, msgs[|msgs| - 1], maxSize)
  }

  lemma {:induction false} RunDescribes(files: seq<Option<string>>, msgs: seq<string>, maxSize: nat)
    requires |files| >= 1 && files[0].Some?
    ensures Describes(RecordAll(Initial(files), msgs, maxSize), SunkAll(files, msgs, maxSize))
    ensures SunkAll(files, msgs, maxSize)[0].Some?
  {
    if msgs == [] {
      InitialDescribes(files);
    } else {
      var init := msgs[..|msgs| - 1];
      RunDescribes(files, init, maxSize);
      RecordDescribes(RecordAll(Initial(files), init, maxSize), SunkAll(files, init, maxSize), msgs[|msgs| - 1], maxSize);
    }
  }

  lemma {:induction false} HistoryDropsOldest(files: seq<Pieces>)
    requires |files| >= 1
    ensures History(files) == files[|files| - 1] + History(files[..|files| - 1])
  {
    if |files| == 1 {
      assert files[1..] == [] && files[..0] == [];
    } else {
      HistoryDropsOldest(files[1..]);
      assert files[1..][..|files| - 2] == files[..|files| - 1][1..];
    }
  }

  lemma RecordHistory(l: Log, msg: string, maxSize: nat)
    requires |l.files| >= 1
    ensures IsSuffix(History(Record(l, msg, maxSize).files), History(l.files) + [msg])
  {
    var r := Record(l, msg, maxSize);
    if |Flatten(l.files[0])| + |msg| > maxSize {
      HistoryDropsOldest(l.files);
      assert r.files[1..] == l.files[..|l.files| - 1];
    } else {
      assert r.files[1..] == l.files[1..];
      assert History(r.files) == History(l.files) + [msg];
    }
  }

  lemma SuffixTrans(a: Pieces, b: Pieces, c: Pieces, msg: string)
    requires IsSuffix(a, b + [msg]) && IsSuffix(b, c)
    ensures IsSuffix(a, c + [msg])
  {
    assert (c + [msg])[|c| - |b|..] == b + [msg];
    assert (c + [msg])[|c| + 1 - |a|..] == (c + [msg])[|c| - |b|..][|b| + 1 - |a|..];
  }

  lemma SuffixGrows(l: Log, all: Pieces, msg: string, maxSize: nat)
    requires |l.files| >= 1 && IsSuffix(History(l.files), all)
    ensures IsSuffix(History(Record(l, msg, maxSize).files), all + [msg])
  {
    RecordHistory(l, msg, maxSize);
    SuffixTrans(History(Record(l, msg, maxSize).files), History(l.files), all, msg);
  }

  /**
   * What survives on disk, oldest file first, is a suffix of the initial contents followed by all
   * messages, in whole pieces: nothing in the middle is lost, reordered, duplicated or split.
   */
  lemma {:induction false} SurvivorsAreSuffix(files: seq<Option<string>>, msgs: seq<string>, maxSize: nat)
    requires |files| >= 1
    ensures IsSuffix(History(RecordAll(Initial(files), msgs, maxSize).files), History(Initial(files).files) + msgs)
  {
    if msgs == [] {
      assert History(Initial(files).files) + [] == History(Initial(files).files);
    } else {
      var init, last := msgs[..|msgs| - 1], msgs[|msgs| - 1];
      SurvivorsAreSuffix(files, init, maxSize);
      SuffixGrows(RecordAll(Initial(files), init, maxSize), History(Initial(files).files) + init, last, maxSize);
      assert History(Initial(files).files) + init + [last] == History(Initial(files).files) + msgs;
    }
  }

  // ---- when it rotates -------------------------------------------------------------------------------

  /** As long as everything fits into the newest file, everything goes there. */
  lemma {:induction false} NoRotationWhileItFits(files: seq<Option<string>>, msgs: seq<string>, maxSize: nat)
    requires |files| >= 1 && files[0].Some? && |Bytes(files[0])| + |Flatten(msgs)| <= maxSize
    ensures SunkAll(files, msgs, maxSize) == files[0 := Some(Bytes(files[0]) + Flatten(msgs))]
  {
    if msgs == [] {
      assert Bytes(files[0]) + "" == Bytes(files[0]);
    } else {
      var init, msg := msgs[..|msgs| - 1], msgs[|msgs| - 1];
      NoRotationWhileItFits(files, init, maxSize);
      assert Bytes(files[0]) + Flatten(init) + msg == Bytes(files[0]) + Flatten(msgs);
    }
  }

  /** The first message that does not fit begins a new file, and every other file moves up by one. */
  lemma RotationWhenItDoesNot(files: seq<Option<string>>, msgs: seq<string>, msg: string, maxSize: nat)
    requires |files| >= 1 && files[0].Some? && |Bytes(files[0])| + |Flatten(msgs)| <= maxSize
    requires |Bytes(files[0])| + |Flatten(msgs)| + |msg| > maxSize
    ensures var all := SunkAll(files, msgs + [msg], maxSize);
      && all[0] == Some(msg)
      && (|files| > 1 ==> all[1] == Some(Bytes(files[0]) + Flatten(msgs)))
      && forall i | 2 <= i < |files| :: all[i] == files[i - 1]
  {
    NoRotationWhileItFits(files, msgs, maxSize);
    assert (msgs + [msg])[..|msgs|] == msgs;
    SunkOver(SunkAll(files, msgs, maxSize), msg, maxSize);
  }

  lemma SunkOver(files: seq<Option<string>>, msg: string, maxSize: nat)
    requires |files| >= 1 && |Bytes(files[0])| + |msg| > maxSize
    ensures var r := Sunk(files, |Bytes(files[0])|, msg, maxSize);
      r[0] == Some(msg) && forall i | 1 <= i < |files| :: r[i] == files[i - 1]
  {
    assert "" + msg == msg;
  }

  // ---- what exactly is lost ----------------------------------------------------------------------

  /** The same log with no limit on the number of files. */
  function RecordForever(l: Log, msg: string, maxSize: nat): (r: Log)
    requires |l.files| >= 1
    ensures |r.files| >= |l.files|
  {
    if |Flatten(l.files[0])| + |msg| > maxSize then Log([[msg]] + l.files, l.rotations + 1)
    else l.(files := l.files[0 := l.files[0] + [msg]])
  }

  function RecordAllForever(l: Log, msgs: seq<string>, maxSize: nat): (r: Log)
    requires |l.files| >= 1
    ensures |r.files| >= |l.files|
  {
    if msgs == [] then l
    else RecordForever(RecordAllForever(l, msgs[..|msgs| - 1], maxSize), msgs[|msgs| - 1], maxSize)
  }

  /** Without the limit everything is kept. */
  lemma {:induction false} ForeverKeepsAll(l: Log, msgs: seq<string>, maxSize: nat)
    requires |l.files| >= 1
    ensures History(RecordAllForever(l, msgs, maxSize).files) == History(l.files) + msgs
  {
    if msgs != [] {
      var init, msg := msgs[..|msgs| - 1], msgs[|msgs| - 1];
      ForeverKeepsAll(l, init, maxSize);
      var before, after := RecordAllForever(l, init, maxSize), RecordAllForever(l, msgs, maxSize);
      if |after.files| > |before.files| {
        assert after.files[1..] == before.files;
      } else {
        assert after.files[1..] == before.files[1..];
      }
      assert History(after.files) == History(before.files) + [msg];
      assert msgs == init + [msg];
    }
  }

  /** `kept` is `all` without what lies beyond its newest `n` files. */
  ghost predicate Truncated(all: Log, kept: Log, n: nat) {
    n <= |all.files| && kept.files == all.files[..n] && kept.rotations == all.rotations
  }

  lemma RecordTruncates(all: Log, kept: Log, n: nat, msg: string, maxSize: nat)
    requires n >= 1 && Truncated(all, kept, n)
    ensures Truncated(RecordForever(all, msg, maxSize), Record(kept, msg, maxSize), n)
    ensures |RecordForever(all, msg, maxSize).files| - |all.files|
         == RecordForever(all, msg, maxSize).rotations - all.rotations
  {
    var a, k := RecordForever(all, msg, maxSize), Record(kept, msg, maxSize);
    if a.rotations == all.rotations {
      assert a.files[..n] == all.files[..n][0 := all.files[0] + [msg]];
    } else {
      assert a.files[..n] == [[msg]] + all.files[..n][..n - 1];
    }
  }

  /** Rotation loses exactly what an unlimited log holds beyond its newest `max_files + 1` files. */
  lemma {:induction false} RotationKeepsNewest(l: Log, msgs: seq<string>, maxSize: nat)
    requires |l.files| >= 1
    ensures var all := RecordAllForever(l, msgs, maxSize);
      && Truncated(all, RecordAll(l, msgs, maxSize), |l.files|)
      && |all.files| - |l.files| == all.rotations - l.rotations
  {
    if msgs == [] {
      assert l.files[..|l.files|] == l.files;
    } else {
      var init, msg := msgs[..|msgs| - 1], msgs[|msgs| - 1];
      RotationKeepsNewest(l, init, maxSize);
      RecordTruncates(RecordAllForever(l, init, maxSize), RecordAll(l, init, maxSize), |l.files|, msg, maxSize);
    }
  }

  /** Files the run itself began are within the size limit or hold a single message. */
  ghost predicate NewFilesBounded(l: Log, maxSize: nat) {
    forall i | 0 <= i < |l.files| && i < l.rotations :: |Flatten(l.files[i])| <= maxSize || |l.files[i]| == 1
  }

  lemma {:induction false} RunBoundsNewFiles(files: seq<Option<string>>, msgs: seq<string>, maxSize: nat)
    requires |files| >= 1
    ensures NewFilesBounded(RecordAll(Initial(files), msgs, maxSize), maxSize)
  {
    if msgs != [] {
      var init, msg := msgs[..|msgs| - 1], msgs[|msgs| - 1];
      RunBoundsNewFiles(files, init, maxSize);
      var l := RecordAll(Initial(files), init, maxSize);
      assert (l.files[0] + [msg])[..|l.files[0]|] == l.files[0];
    }
  }

  lemma {:induction false} FlattenAppend(a: Pieces, b: Pieces)
    ensures Flatten(a + b) == Flatten(a) + Flatten(b)
  {
    if b == [] {
      assert a + b == a;
      assert Flatten(a) + "" == Flatten(a);
    } else {
      FlattenAppend(a, b[..|b| - 1]);
      assert (a + b)[..|a + b| - 1] == a + b[..|b| - 1];
    }
  }

  /** The bytes on disk, oldest file first. */
  function DiskBytes(files: seq<Option<string>>): string {
    if files == [] then "" else DiskBytes(files[1..]) + Bytes(files[0])
  }

  lemma {:induction false} HistoryBytes(l: Log, files: seq<Option<string>>)
    requires Describes(l, files)
    ensures Flatten(History(l.files)) == DiskBytes(files)
    decreases |files|
  {
    if files != [] {
      HistoryBytes(l.(files := l.files[1..]), files[1..]);
      FlattenAppend(History(l.files[1..]), l.files[0]);
    }
  }

  /** The same in bytes: after any run the files hold a suffix of everything written. */
  lemma DiskIsSuffixOfHistory(files: seq<Option<string>>, msgs: seq<string>, maxSize: nat)
    requires |files| >= 1 && files[0].Some?
    ensures exists n: nat ::
              (n <= |DiskBytes(files) + Flatten(msgs)| &&
               DiskBytes(SunkAll(files, msgs, maxSize)) == (DiskBytes(files) + Flatten(msgs))[n..])
  {
    var l := RecordAll(Initial(files), msgs, maxSize);
    var all := History(Initial(files).files) + msgs;
    SurvivorsAreSuffix(files, msgs, maxSize);
    RunDescribes(files, msgs, maxSize);
    InitialDescribes(files);
    HistoryBytes(l, SunkAll(files, msgs, maxSize));
    HistoryBytes(Initial(files), files);
    FlattenAppend(History(Initial(files).files), msgs);
    var n := SuffixBytes(History(l.files), all);
  }

  lemma SuffixBytes(a: Pieces, b: Pieces) returns (n: nat)
    requires IsSuffix(a, b)
    ensures n <= |Flatten(b)| && Flatten(a) == Flatten(b)[n..]
  {
    var lost := b[..|b| - |a|];
    assert lost + a == b;
    FlattenAppend(lost, a);
    n := |Flatten(lost)|;
  }
}
