/**
  * Repeated backups of legacy launch-agent files (monitor/src/migration.rs). The backup directory
  * is a finite map from file names to contents; a run may fail while copying or while writing the
  * manifest.
  */
module Migration {
  import opened Wrappers
  import opened Decimal

  // ---------- file names ----------

  const MANIFEST := "backup-manifest.json"
  const TEMPORARY := ".backup-manifest.json.tmp"

  predicate Reserved(name: string) {
    name == MANIFEST || name == TEMPORARY
  }

  /** Position of the last dot before position `n`, if any. */
  function LastDot(name: string, n: nat): (r: Option<nat>)
    requires n <= |name|
    ensures r.Some? ==> r.value < n && name[r.value] == '.'
  {
    if n == 0 then None
    else if name[n - 1] == '.' then Some(n - 1)
    else LastDot(name, n - 1)
  }

  /** The extension starts at the last dot, unless that is the first character. */
  function StemLength(name: string): (n: nat)
    ensures n <= |name|
  {
    match LastDot(name, |name|)
    case Some(i) => if i > 0 then i else |name|
    case None => |name|
  }

  /** The name with a number put in before its extension. */
  function Suffixed(name: string, index: nat): string {
    var n := StemLength(name);
    name[..n] + "." + Digits(index) + name[n..]
  }

  lemma {:induction false} LastDotIs(name: string, n: nat, i: nat)
    requires i < n <= |name| && name[i] == '.' && forall k | i < k < n :: name[k] != '.'
    ensures LastDot(name, n) == Some(i)
  {
    if i < n - 1 { LastDotIs(name, n - 1, i); }
  }

  lemma {:induction false} NoDotBefore(name: string, n: nat)
    requires n <= |name| && forall k | 1 <= k < n :: name[k] != '.'
    ensures LastDot(name, n).None? || LastDot(name, n) == Some(0)
  {
    if n > 1 { NoDotBefore(name, n - 1); }
  }

  /** The number goes between the stem and the extension after the last dot. */
  lemma SuffixedWithExtension(stem: string, extension: string, index: nat)
    requires stem != [] && '.' !in extension
    ensures Suffixed(stem + "." + extension, index) == stem + "." + Digits(index) + "." + extension
  {
    var name := stem + "." + extension;
    forall k | |stem| < k < |name| ensures name[k] != '.' {
      assert name[k] == extension[k - |stem| - 1];
    }
    LastDotIs(name, |name|, |stem|);
    assert name[..|stem|] == stem && name[|stem|..] == "." + extension;
  }

  /** A name without an extension, or one that only starts with a dot, gets the number at its end. */
  lemma SuffixedWithoutExtension(name: string, index: nat)
    requires forall k | 1 <= k < |name| :: name[k] != '.'
    ensures Suffixed(name, index) == name + "." + Digits(index)
  {
    NoDotBefore(name, |name|);
    assert name[..|name|] == name && name[|name|..] == [];
  }

  lemma SuffixedIsInjective(name: string, i: nat, j: nat)
    requires Suffixed(name, i) == Suffixed(name, j)
    ensures i == j
  {
    var n := StemLength(name);
    var s, t := Suffixed(name, i), Suffixed(name, j);
    assert |Digits(i)| == |Digits(j)|;
    assert s[n + 1..n + 1 + |Digits(i)|] == Digits(i);
    assert t[n + 1..n + 1 + |Digits(i)|] == Digits(j);
    ValueOfDigits(i);
    ValueOfDigits(j);
  }

  lemma ReservedDots(name: string, i: nat)
    requires Reserved(name) && i + 1 < |name| && name[i] == '.'
    ensures !IsDigit(name[i + 1])
  {
    if name == MANIFEST {
      assert i == 15;
    } else {
      assert i == 0 || i == 16 || i == 21;
    }
  }

  /** In a suffixed name some dot is followed by a digit; in the reserved names none is. */
  lemma SuffixedIsNotReserved(name: string, index: nat)
    ensures !Reserved(Suffixed(name, index))
  {
    var n, s := StemLength(name), Suffixed(name, index);
    assert n + 1 < |s| && s[n] == '.' && s[n + 1] == Digits(index)[0];
    if Reserved(s) { ReservedDots(s, n); }
  }

  // ---------- choosing a destination ----------

  datatype File = Copied(data: nat) | Manifest(entries: seq<Entry>) | Partial

  datatype Entry = Entry(source: nat, destination: string, size: nat)

  type Directory = map<string, File>

  /** `destination` is the name itself if that is free, else the first free numbered variant. */
  ghost predicate FirstFree(directory: Directory, name: string, destination: string) {
    && destination !in directory
    && (name !in directory ==> destination == name)
    && (name in directory ==> exists index: nat :: TakenBelow(directory, name, index) && destination == Suffixed(name, index))
  }

  ghost predicate TakenBelow(directory: Directory, name: string, index: nat) {
    index >= 1 && forall k | 1 <= k < index :: Suffixed(name, k) in directory
  }

  /** Pigeonhole: taken names are all different, so there are no more of them than files. */
  lemma {:induction false} TakenIsBounded(directory: Directory, name: string, index: nat)
    requires TakenBelow(directory, name, index)
    ensures index <= |directory| + 1
    decreases index
  {
    if index > 1 {
      var last := Suffixed(name, index - 1);
      var smaller := directory - {last};
      forall k | 1 <= k < index - 1 ensures Suffixed(name, k) in smaller {
        if Suffixed(name, k) == last { SuffixedIsInjective(name, k, index - 1); }
      }
      TakenIsBounded(smaller, name, index - 1);
      assert directory == smaller[last := directory[last]];
    }
  }

  /** Ends for every finite directory. */
  method UniqueBackupPath(directory: Directory, name: string) returns (destination: string)
    ensures FirstFree(directory, name, destination)
    ensures Reserved(destination) ==> destination == name
  {
    if name !in directory { return name; }
    var index := 1;
    while Suffixed(name, index) in directory
      invariant TakenBelow(directory, name, index)
      decreases |directory| + 2 - index
    {
      TakenIsBounded(directory, name, index);
      index := index + 1;
    }
    SuffixedIsNotReserved(name, index);
    return Suffixed(name, index);
  }

  // ---------- one run ----------

  /** A file to back up; its path may have no file name. */
  datatype Plist = Plist(source: nat, name: Option<string>, data: nat, size: nat)

  /** What goes wrong in a run: copying the given file, possibly leaving part of it, or writing the
      manifest, possibly leaving the temporary file. */
  datatype Fault = NoFault | CopyFails(at: nat, partial: bool) | WriteFails(left: bool)

  datatype Result = Ok(entries: seq<Entry>) | Err

  /** The manifest a run starts from. */
  function Load(directory: Directory): Result {
    if MANIFEST !in directory then Ok([])
    else if directory[MANIFEST].Manifest? then Ok(directory[MANIFEST].entries)
    else Err
  }

  /** Every file of the directory is still there with its contents, the manifest and the temporary
      file aside. */
  ghost predicate Keeps(before: Directory, after: Directory) {
    forall name | name in before && !Reserved(name) :: name in after && after[name] == before[name]
  }

  /** The entry's destination holds the copy. */
  ghost predicate Holds(directory: Directory, entry: Entry) {
    entry.destination in directory && directory[entry.destination].Copied?
  }

  ghost predicate AllHold(directory: Directory, entries: seq<Entry>) {
    forall i | 0 <= i < |entries| :: Holds(directory, entries[i])
  }

  ghost predicate Distinct(entries: seq<Entry>) {
    forall i, j | 0 <= i < j < |entries| :: entries[i].destination != entries[j].destination
  }

  ghost predicate NoneReserved(entries: seq<Entry>) {
    forall i | 0 <= i < |entries| :: !Reserved(entries[i].destination)
  }

  /** The manifest, if there is one, names distinct files that hold the copies. */
  ghost predicate Sound(directory: Directory) {
    MANIFEST in directory ==>
      && directory[MANIFEST].Manifest?
      && var entries := directory[MANIFEST].entries;
         AllHold(directory, entries) && Distinct(entries) && NoneReserved(entries)
  }

  /** No file takes the place of the manifest or of the temporary file. */
  ghost predicate Safe(directory: Directory, plists: seq<Plist>) {
    forall i | 0 <= i < |plists| :: SafeName(directory, plists[i])
  }

  predicate SafeName(directory: Directory, plist: Plist) {
    plist.name.Some? && Reserved(plist.name.value) ==> plist.name.value in directory
  }

  /** Everything that was there is unchanged. */
  ghost predicate Extends(before: Directory, after: Directory) {
    forall name | name in before :: name in after && after[name] == before[name]
  }

  /** The name itself or one of its numbered variants. */
  ghost predicate Variant(name: string, destination: string) {
    destination == name || exists index: nat :: index >= 1 && destination == Suffixed(name, index)
  }

  /** `entry` records a new file, under the name of `plist` or a variant of it, holding its copy. */
  ghost predicate Records(before: Directory, after: Directory, plist: Plist, entry: Entry) {
    && plist.name.Some? && entry.source == plist.source && entry.size == plist.size
    && Variant(plist.name.value, entry.destination)
    && entry.destination !in before
    && entry.destination in after && after[entry.destination] == Copied(plist.data)
  }

  ghost predicate Recorded(before: Directory, after: Directory, plists: seq<Plist>, added: seq<Entry>) {
    |added| <= |plists| && forall j | 0 <= j < |added| :: Records(before, after, plists[j], added[j])
  }

  ghost predicate IsDestination(added: seq<Entry>, name: string) {
    exists j | 0 <= j < |added| :: added[j].destination == name
  }

  ghost predicate OnlyAdds(before: Directory, after: Directory, added: seq<Entry>) {
    forall name | name in after :: name in before || IsDestination(added, name)
  }

  /** The first `|added|` files are copied, each to a new place. */
  ghost predicate Placed(before: Directory, after: Directory, plists: seq<Plist>, added: seq<Entry>) {
    && Extends(before, after) && OnlyAdds(before, after, added)
    && Recorded(before, after, plists, added) && Distinct(added)
  }

  /** A reserved place is among them only if a name asks for it. */
  ghost predicate Copying(before: Directory, after: Directory, plists: seq<Plist>, added: seq<Entry>) {
    && Placed(before, after, plists, added)
    && (NoneReserved(added) <==> Safe(before, plists[..|added|]))
  }

  lemma SafeSnoc(before: Directory, plists: seq<Plist>, i: nat)
    requires i < |plists|
    ensures Safe(before, plists[..i + 1]) <==> Safe(before, plists[..i]) && SafeName(before, plists[i])
  {
    assert plists[..i + 1] == plists[..i] + [plists[i]];
    if Safe(before, plists[..i + 1]) {
      assert SafeName(before, plists[..i + 1][i]);
      forall j | 0 <= j < i ensures SafeName(before, plists[..i][j]) { assert plists[..i + 1][j] == plists[..i][j]; }
    }
  }

  lemma NoneReservedSnoc(added: seq<Entry>, entry: Entry)
    ensures NoneReserved(added + [entry]) <==> NoneReserved(added) && !Reserved(entry.destination)
  {
    if NoneReserved(added + [entry]) {
      assert (added + [entry])[|added|] == entry;
      forall j | 0 <= j < |added| ensures !Reserved(added[j].destination) { assert (added + [entry])[j] == added[j]; }
    }
  }

  /** A reserved destination is exactly an unsafe name, or one came before it. */
  lemma SafeNext(before: Directory, after: Directory, plists: seq<Plist>, added: seq<Entry>, entry: Entry)
    requires Extends(before, after) && OnlyAdds(before, after, added) && |added| < |plists| && plists[|added|].name.Some?
    requires NoneReserved(added) <==> Safe(before, plists[..|added|])
    requires FirstFree(after, plists[|added|].name.value, entry.destination)
    requires Reserved(entry.destination) ==> entry.destination == plists[|added|].name.value
    ensures NoneReserved(added + [entry]) <==> Safe(before, plists[..|added| + 1])
  {
    var name := plists[|added|].name.value;
    SafeSnoc(before, plists, |added|);
    NoneReservedSnoc(added, entry);
    if Reserved(name) && name !in before && name in after {
      assert IsDestination(added, name);
      assert !NoneReserved(added);
    }
  }

  lemma FirstFreeIsVariant(directory: Directory, name: string, destination: string)
    requires FirstFree(directory, name, destination)
    ensures Variant(name, destination)
  {
  }

  lemma PlacedNext(before: Directory, after: Directory, plists: seq<Plist>, added: seq<Entry>, entry: Entry)
    requires Placed(before, after, plists, added) && |added| < |plists|
    requires entry.destination !in after && plists[|added|].name.Some? && Variant(plists[|added|].name.value, entry.destination)
    requires entry.source == plists[|added|].source && entry.size == plists[|added|].size
    ensures Placed(before, after[entry.destination := Copied(plists[|added|].data)], plists, added + [entry])
  {
    RecordNext(before, after, plists, added, entry);
    ExtendsNext(before, after, entry.destination, Copied(plists[|added|].data));
    OnlyAddsNext(before, after, added, entry, Copied(plists[|added|].data));
  }

  /** One more copy. */
  lemma CopyNext(before: Directory, after: Directory, plists: seq<Plist>, added: seq<Entry>, entry: Entry)
    requires Copying(before, after, plists, added) && |added| < |plists| && plists[|added|].name.Some?
    requires FirstFree(after, plists[|added|].name.value, entry.destination)
    requires Reserved(entry.destination) ==> entry.destination == plists[|added|].name.value
    requires entry.source == plists[|added|].source && entry.size == plists[|added|].size
    ensures Copying(before, after[entry.destination := Copied(plists[|added|].data)], plists, added + [entry])
  {
    FirstFreeIsVariant(after, plists[|added|].name.value, entry.destination);
    PlacedNext(before, after, plists, added, entry);
    SafeNext(before, after, plists, added, entry);
  }

  lemma ExtendsNext(before: Directory, after: Directory, name: string, file: File)
    requires Extends(before, after) && name !in after
    ensures Extends(before, after[name := file])
  {
  }

  lemma OnlyAddsNext(before: Directory, after: Directory, added: seq<Entry>, entry: Entry, file: File)
    requires OnlyAdds(before, after, added)
    ensures OnlyAdds(before, after[entry.destination := file], added + [entry])
  {
    var i, added' := |added|, added + [entry];
    assert added'[i].destination == entry.destination;
    forall name | name in after && name !in before ensures IsDestination(added', name) {
      var j :| 0 <= j < i && added[j].destination == name;
      assert added'[j].destination == name;
    }
  }

  lemma RecordNext(before: Directory, after: Directory, plists: seq<Plist>, added: seq<Entry>, entry: Entry)
    requires Extends(before, after) && Recorded(before, after, plists, added) && Distinct(added) && |added| < |plists|
    requires entry.destination !in after && plists[|added|].name.Some? && Variant(plists[|added|].name.value, entry.destination)
    requires entry.source == plists[|added|].source && entry.size == plists[|added|].size
    ensures Recorded(before, after[entry.destination := Copied(plists[|added|].data)], plists, added + [entry])
    ensures Distinct(added + [entry])
  {
    var i, added' := |added|, added + [entry];
    forall j | 0 <= j < i + 1
      ensures Records(before, after[entry.destination := Copied(plists[i].data)], plists[j], added'[j])
      ensures j < i ==> added'[j].destination != entry.destination
    {
      assert j < i ==> added'[j] == added[j] && Records(before, after, plists[j], added[j]);
    }
  }

  ghost predicate ReservedStay(before: Directory, after: Directory) {
    forall name | name in after && Reserved(name) :: name in before
  }

  lemma SafePrefix(before: Directory, plists: seq<Plist>, i: nat)
    requires Safe(before, plists) && i <= |plists|
    ensures Safe(before, plists[..i])
  {
    forall j | 0 <= j < i ensures SafeName(before, plists[..i][j]) { assert plists[..i][j] == plists[j]; }
  }

  /** Safe names leave the reserved places alone. */
  lemma CopyingStays(before: Directory, after: Directory, plists: seq<Plist>, added: seq<Entry>)
    requires Copying(before, after, plists, added) && Safe(before, plists)
    ensures ReservedStay(before, after)
  {
    SafePrefix(before, plists, |added|);
  }

  /** A copy that fails halfway. */
  lemma PartialStays(before: Directory, after: Directory, plists: seq<Plist>, added: seq<Entry>, destination: string)
    requires Copying(before, after, plists, added) && |added| < |plists| && plists[|added|].name.Some?
    requires FirstFree(after, plists[|added|].name.value, destination)
    requires Reserved(destination) ==> destination == plists[|added|].name.value
    ensures Extends(before, after[destination := Partial])
    ensures Safe(before, plists) ==> ReservedStay(before, after[destination := Partial])
  {
    if Safe(before, plists) {
      CopyingStays(before, after, plists, added);
      assert SafeName(before, plists[|added|]);
    }
  }

  predicate Named(plists: seq<Plist>) {
    forall i | 0 <= i < |plists| :: plists[i].name.Some?
  }

  /** Copies the files one after the other, stopping at the first that fails. */
  method CopyAll(before: Directory, plists: seq<Plist>, fault: Fault)
    returns (after: Directory, added: seq<Entry>, ok: bool)
    ensures Extends(before, after)
    ensures ok ==> |added| == |plists| && Copying(before, after, plists, added)
    ensures ok <==> Named(plists) && !(fault.CopyFails? && fault.at < |plists|)
    ensures Safe(before, plists) ==> ReservedStay(before, after)
  {
    after, added := before, [];
    for i := 0 to |plists|
      invariant |added| == i && Copying(before, after, plists, added)
      invariant fault.CopyFails? ==> i <= fault.at
    {
      if Safe(before, plists) { CopyingStays(before, after, plists, added); }
      if plists[i].name.None? { return after, added, false; }
      var destination := UniqueBackupPath(after, plists[i].name.value);
      var entry := Entry(plists[i].source, destination, plists[i].size);
      if fault.CopyFails? && fault.at == i {
        PartialStays(before, after, plists, added, destination);
        if fault.partial { after := after[destination := Partial]; }
        return after, added, false;
      }
      CopyNext(before, after, plists, added, entry);
      after, added := after[destination := Copied(plists[i].data)], added + [entry];
    }
    if Safe(before, plists) { CopyingStays(before, after, plists, added); }
    assert forall i | 0 <= i < |plists| :: Records(before, after, plists[i], added[i]);
    ok := true;
  }

  /** The temporary file is written and renamed onto the manifest. */
  function Written(directory: Directory, entries: seq<Entry>): Directory {
    (directory - {TEMPORARY})[MANIFEST := Manifest(entries)]
  }

  /** The new entries, in order, record the files backed up. */
  ghost predicate RecordsAll(before: Directory, after: Directory, plists: seq<Plist>, known: nat, entries: seq<Entry>) {
    |entries| == known + |plists| && forall i | 0 <= i < |plists| :: Records(before, after, plists[i], entries[known + i])
  }

  lemma WrittenHolds(directory: Directory, entries: seq<Entry>, entry: Entry)
    requires Holds(directory, entry)
    ensures Holds(Written(directory, entries), entry) <==> !Reserved(entry.destination)
  {
  }

  lemma HoldParts(directory: Directory, a: seq<Entry>, b: seq<Entry>)
    ensures AllHold(directory, a + b) <==> AllHold(directory, a) && AllHold(directory, b)
    ensures NoneReserved(a + b) <==> NoneReserved(a) && NoneReserved(b)
  {
    forall i | 0 <= i < |a| ensures (a + b)[i] == a[i] {}
    forall i | 0 <= i < |b| ensures (a + b)[|a| + i] == b[i] {}
  }

  lemma AllHoldWritten(directory: Directory, list: seq<Entry>, entries: seq<Entry>)
    requires AllHold(directory, list)
    ensures AllHold(Written(directory, entries), list) <==> NoneReserved(list)
  {
    forall i | 0 <= i < |list|
      ensures Holds(Written(directory, entries), list[i]) <==> !Reserved(list[i].destination)
    {
      WrittenHolds(directory, entries, list[i]);
    }
  }

  lemma ExtendsHolds(before: Directory, copied: Directory, known: seq<Entry>)
    requires Extends(before, copied) && AllHold(before, known)
    ensures AllHold(copied, known)
  {
    forall i | 0 <= i < |known| ensures Holds(copied, known[i]) { assert Holds(before, known[i]); }
  }

  lemma RecordedHolds(before: Directory, copied: Directory, plists: seq<Plist>, added: seq<Entry>)
    requires Recorded(before, copied, plists, added)
    ensures AllHold(copied, added)
  {
    forall i | 0 <= i < |added| ensures Holds(copied, added[i]) { assert Records(before, copied, plists[i], added[i]); }
  }

  lemma DistinctParts(before: Directory, copied: Directory, plists: seq<Plist>, known: seq<Entry>, added: seq<Entry>)
    requires AllHold(before, known) && Recorded(before, copied, plists, added) && Distinct(known) && Distinct(added)
    ensures Distinct(known + added)
  {
    var all := known + added;
    forall i, j | 0 <= i < j < |all| ensures all[i].destination != all[j].destination {
      if i < |known| <= j {
        assert Holds(before, known[i]) && Records(before, copied, plists[j - |known|], added[j - |known|]);
      }
    }
  }

  /** Writing the manifest over the copies: everything recorded is there exactly when no copy took
      a reserved place, and then the directory is sound. */
  lemma Finish(before: Directory, copied: Directory, plists: seq<Plist>, known: seq<Entry>, added: seq<Entry>)
    requires Sound(before) && Load(before) == Ok(known)
    requires Copying(before, copied, plists, added) && |added| == |plists|
    ensures AllHold(Written(copied, known + added), known + added) <==> Safe(before, plists)
    ensures Safe(before, plists) ==> Sound(Written(copied, known + added))
  {
    var entries := known + added;
    assert plists[..|added|] == plists;
    ExtendsHolds(before, copied, known);
    RecordedHolds(before, copied, plists, added);
    HoldParts(copied, known, added);
    AllHoldWritten(copied, entries, entries);
    DistinctParts(before, copied, plists, known, added);
  }

  lemma FinishRecords(before: Directory, copied: Directory, plists: seq<Plist>, known: seq<Entry>, added: seq<Entry>)
    requires Copying(before, copied, plists, added) && |added| == |plists| && Safe(before, plists)
    ensures RecordsAll(before, Written(copied, known + added), plists, |known|, known + added)
  {
    var entries := known + added;
    assert plists[..|added|] == plists;
    forall i | 0 <= i < |plists| ensures Records(before, Written(copied, entries), plists[i], entries[|known| + i]) {
      assert Records(before, copied, plists[i], added[i]) && entries[|known| + i] == added[i];
    }
  }

  lemma WrittenKeeps(before: Directory, copied: Directory, entries: seq<Entry>)
    requires Extends(before, copied)
    ensures Keeps(before, Written(copied, entries)) && Keeps(before, copied) && Keeps(before, copied[TEMPORARY := Partial])
  {
  }

  /** A run that stops halfway leaves a sound directory sound, with the same manifest. */
  lemma StopsSound(before: Directory, after: Directory)
    requires Keeps(before, after) && Sound(before)
    requires MANIFEST in after <==> MANIFEST in before
    requires MANIFEST in before ==> after[MANIFEST] == before[MANIFEST]
    ensures Sound(after) && Load(after) == Load(before)
  {
    if MANIFEST in before {
      var entries := before[MANIFEST].entries;
      forall i | 0 <= i < |entries| ensures Holds(after, entries[i]) { assert Holds(before, entries[i]); }
    }
  }

  /** One run. No file of the directory is lost or changed in any case. A run that succeeds keeps
      the old entries in front and adds one for each file; every recorded destination then holds
      its copy exactly when no file name takes a free reserved place. A run that fails keeps the
      manifest. */
  method BackupLegacy(before: Directory, plists: seq<Plist>, fault: Fault) returns (after: Directory, r: Result)
    ensures Keeps(before, after)
    ensures r.Ok? <==> Load(before).Ok? && Named(plists) && (fault.NoFault? || (fault.CopyFails? && fault.at >= |plists|))
    ensures r.Ok? ==> Load(before).entries <= r.entries && Load(after) == r
    ensures r.Ok? ==> MANIFEST in after && after[MANIFEST] == Manifest(r.entries) && TEMPORARY !in after
    ensures MANIFEST in before && !before[MANIFEST].Manifest? ==> r.Err? && after == before
    ensures r.Ok? && MANIFEST in before ==> before[MANIFEST].entries <= r.entries
    ensures r.Ok? ==> |r.entries| == |Load(before).entries| + |plists|
    ensures r.Ok? && Sound(before) ==> (AllHold(after, r.entries) <==> Safe(before, plists))
    ensures r.Ok? && Safe(before, plists) ==> RecordsAll(before, after, plists, |Load(before).entries|, r.entries)
    ensures Sound(before) && Safe(before, plists) ==> Sound(after) && (r.Err? ==> Load(after) == Load(before))
  {
    var loaded := Load(before);
    if loaded.Err? { return before, Err; }
    var known := loaded.entries;
    var copied, added, ok := CopyAll(before, plists, fault);
    WrittenKeeps(before, copied, known + added);
    if ok && !fault.WriteFails? {
      if Sound(before) { Finish(before, copied, plists, known, added); }
      if Safe(before, plists) { FinishRecords(before, copied, plists, known, added); }
      return Written(copied, known + added), Ok(known + added);
    }
    after := if ok && fault.left then copied[TEMPORARY := Partial] else copied;
    if Sound(before) && Safe(before, plists) { StopsSound(before, after); }
    r := Err;
  }

  /** A file named like the manifest, in a new backup directory: the run succeeds and its own
      manifest replaces the copy it records. */
  method ManifestNameIsLost() returns (after: Directory, r: Result)
    ensures r.Ok? && |r.entries| == 1 && !AllHold(after, r.entries)
  {
    var plists := [Plist(0, Some(MANIFEST), 0, 0)];
    assert !SafeName(map[], plists[0]);
    after, r := BackupLegacy(map[], plists, NoFault);
    assert Load(map[]).entries == [] && Sound(map[]);
  }

  // ---------- any number of runs ----------

  datatype Run = Run(plists: seq<Plist>, fault: Fault)

  ghost predicate Unreserved(run: Run) {
    forall i | 0 <= i < |run.plists| && run.plists[i].name.Some? :: !Reserved(run.plists[i].name.value)
  }

  /** Later directories keep every file, and later manifests start with the earlier ones. */
  ghost predicate Grows(a: Directory, b: Directory) {
    Keeps(a, b) && Load(a).Ok? && Load(b).Ok? && Load(a).entries <= Load(b).entries
  }

  ghost predicate Growing(states: seq<Directory>) {
    forall i, j | 0 <= i <= j < |states| :: Grows(states[i], states[j])
  }

  lemma GrowingSnoc(states: seq<Directory>, next: Directory)
    requires states != [] && Growing(states) && Grows(states[|states| - 1], next) && Grows(next, next)
    ensures Growing(states + [next])
  {
    var all, n := states + [next], |states|;
    forall i, j | 0 <= i <= j < |all| ensures Grows(all[i], all[j]) {
      if j < n {
        assert Grows(states[i], states[j]);
      } else if i < n {
        assert Grows(states[i], states[n - 1]);
      }
    }
  }

  /** Every file has a name, and nothing goes wrong while copying them or writing the manifest. */
  predicate Succeeds(run: Run) {
    Named(run.plists) && (run.fault.NoFault? || (run.fault.CopyFails? && run.fault.at >= |run.plists|))
  }

  /** What one run of several does: it succeeds exactly when nothing goes wrong, records then a copy
      of every file at a new place after the known entries, and keeps the manifest otherwise. */
  ghost predicate Ran(before: Directory, run: Run, after: Directory, r: Result) {
    && Load(before).Ok? && (r.Ok? <==> Succeeds(run))
    && (r.Ok? ==> Load(after) == r && RecordsAll(before, after, run.plists, |Load(before).entries|, r.entries))
    && (r.Err? ==> Load(after) == Load(before))
  }

  /** Any number of runs, some of them failing: destinations stay distinct and hold their copies,
      earlier manifests stay a prefix, and no file is ever overwritten. */
  method BackupRuns(before: Directory, runs: seq<Run>) returns (states: seq<Directory>, results: seq<Result>)
    requires Sound(before) && forall i | 0 <= i < |runs| :: Unreserved(runs[i])
    ensures |states| == |runs| + 1 && |results| == |runs| && states[0] == before
    ensures Growing(states) && forall i | 0 <= i < |states| :: Sound(states[i])
    ensures forall i | 0 <= i < |runs| :: Ran(states[i], runs[i], states[i + 1], results[i])
  {
    states, results := [before], [];
    var current := before;
    for i := 0 to |runs|
      invariant |states| == i + 1 && |results| == i && states[0] == before && states[i] == current
      invariant Growing(states) && forall j | 0 <= j <= i :: Sound(states[j])
      invariant forall j | 0 <= j < i :: Ran(states[j], runs[j], states[j + 1], results[j])
    {
      assert Safe(current, runs[i].plists) by { assert Unreserved(runs[i]); }
      assert Grows(states[i], states[i]);
      var next, r := BackupLegacy(current, runs[i].plists, runs[i].fault);
      GrowingSnoc(states, next);
      states, results, current := states + [next], results + [r], next;
    }
  }

  /** A copy recorded by one run is still there, with its contents, after every later run. */
  lemma CopiesLast(states: seq<Directory>, runs: seq<Run>, results: seq<Result>, i: nat, k: nat, j: nat)
    requires |states| == |runs| + 1 && |results| == |runs| && Growing(states)
    requires forall n | 0 <= n < |states| :: Sound(states[n])
    requires forall n | 0 <= n < |runs| :: Ran(states[n], runs[n], states[n + 1], results[n])
    requires i < j < |states| && results[i].Ok? && k < |runs[i].plists|
    ensures
      var n := |Load(states[i]).entries| + k;
      && n < |Load(states[j]).entries|
      && var entry := Load(states[j]).entries[n];
         && entry.source == runs[i].plists[k].source
         && entry.destination in states[j] && states[j][entry.destination] == Copied(runs[i].plists[k].data)
  {
    assert Ran(states[i], runs[i], states[i + 1], results[i]);
    assert Grows(states[i + 1], states[j]);
    var n := |Load(states[i]).entries| + k;
    var entry := results[i].entries[n];
    assert Records(states[i], states[i + 1], runs[i].plists[k], entry);
    assert !Reserved(entry.destination) by { assert Sound(states[i + 1]); }
    assert Load(states[j]).entries[n] == entry;
  }
}
