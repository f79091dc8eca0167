/**
  `OS_get_table` of os/Cygwin.c: the loop over `/proc`, on one obstack that is
  begun before it and given back after it.
 */
module ProcessTable {
  import opened Listings
  import opened Bits
  import opened Memory
  import opened Obstacks
  import opened ProcRecord
  import opened Bless
  import opened Scanf
  import opened Scraper

  /** An entry of the directory: its name, and the process behind it if the name is a number. */
  datatype Entry = Entry(name: seq<char>, proc: Proc)

  ghost predicate IsPid(name: seq<char>) {
    forall i | 0 <= i < |name| :: IsDigit(name[i])
  }

  /** `is_pid`: every character is a digit; so an empty name passes as well. */
  method CheckPid(name: seq<char>) returns (isPid: bool)
    ensures isPid <==> forall i | 0 <= i < |name| :: '0' <= name[i] <= '9'
  {
    for i := 0 to |name|
      invariant forall j | 0 <= j < i :: '0' <= name[j] <= '9'
    {
      if !IsDigit(name[i]) {
        return false;
      }
    }
    isPid := true;
  }

  /** What one entry of the directory adds to the table. */
  ghost function EntryTable(e: Entry, sys: System): seq<Hash> {
    if IsPid(e.name) && !Vanished(e.proc) && Record(e.proc, sys).Some? then [Record(e.proc, sys).value] else []
  }

  /** The table: a record for each process that was still there, in the order of the directory. */
  ghost function TableOf(entries: seq<Entry>, sys: System): seq<Hash> {
    if entries == [] then []
    else TableOf(entries[..|entries| - 1], sys) + EntryTable(entries[|entries| - 1], sys)
  }

  ghost function EntryGone(e: Entry): nat {
    if IsPid(e.name) && Vanished(e.proc) then 1 else 0
  }

  /** The processes that went away while they were read. */
  ghost function Gone(entries: seq<Entry>): nat {
    if entries == [] then 0 else Gone(entries[..|entries| - 1]) + EntryGone(entries[|entries| - 1])
  }

  ghost predicate EntryFits(e: Entry) {
    IsPid(e.name) ==> e.proc.pid == e.name && ProcFits(e.proc)
  }

  /** The call of `bless_into_proc`: every pointer it is given is live and reads as it was written. */
  method BlessProcess(ob: Obstack, out: Scraped, p: Proc, sys: System, ghost k: nat, ghost before: seq<Obj>,
                      ghost kept: seq<Kept>)
    returns (r: Option<Hash>)
    requires Ready(ob, out.fmt, Format(k, DEFAULT_FORMAT, Fields(p, sys)))
    requires Intact(ob.objects, before, out.prs, k, kept)
    requires AllKept(kept, out.ptrs, p) && ScalarsOf(out, p)
    ensures r == Record(p, sys)
  {
    ghost var on := Fields(p, sys);
    var cmndline, exec, cwd, winexename, cmdline, environ := LoadTexts(ob, out.ptrs, p, k, kept);
    FormatKnown(on);
    TextStored(ob, out.fmt, FormatWith(on), k);
    var format := ReadString(ob.mem, out.fmt, FormatWith(on));
    var v := View(out.uid, out.gid, out.stat, out.ids, if out.winpid.Some? then out.winpid.value else 0,
                  cmndline, exec, cwd, winexename, cmdline, environ, p.pctcpu, p.pctmem);
    assert v == ViewOf(p);
    FieldsBacked(p, sys);
    RecordFits(v, sys, on);
    r := BlessIntoProc(format, FIELD_NAMES, Args(v, sys), sys.ttydevs);
  }

  lemma DefaultOff()
    ensures |DEFAULT_FORMAT| == N_FIELDS && IdsOff(DEFAULT_FORMAT)
  {
  }

  /**
    One turn of the loop.  A process read to its end leaves the obstack's live
    objects as they were; one that vanished leaves its record and its format
    string above them.
   */
  method OneProcess(ob: Obstack, p: Proc, sys: System) returns (ok: bool, r: Option<Hash>)
    requires ob.Valid() && ob.growing == [] && ProcFits(p)
    modifies ob, ob.mem, ob.allocator
    ensures ok <==> ob.failures == old(ob.failures)
    ensures ok ==> ob.Valid() && ob.growing == []
    ensures ok && !Vanished(p) ==> r == Record(p, sys) && ob.objects == old(ob.objects)
    ensures ok && Vanished(p) ==>
              r == None && |ob.objects| == |old(ob.objects)| + 2 && ob.objects[..|old(ob.objects)|] == old(ob.objects)
  {
    DefaultOff();
    r := None;
    var out;
    ghost var kept;
    ok, out, kept := Scrape(ob, p, DEFAULT_FORMAT, sys.memoryKnown, SwitchesOf(p, sys));
    if !ok || out.gone {
      return;
    }
    r := BlessProcess(ob, out, p, sys, |old(ob.objects)| + 1, old(ob.objects), kept);
    ob.Free(out.prs, |old(ob.objects)|);
  }

  /** `struct dirent`, kept on the obstack while the directory is walked. */
  const DIRENT_SIZE: nat := 276

  /** The name is a number, and its process was still there when it was read. */
  ghost predicate Stays(e: Entry) {
    && (forall i | 0 <= i < |e.name| :: '0' <= e.name[i] <= '9')
    && (StatOf(e.proc).readOk || e.proc.exists_)
  }

  /**
    The table holds the record of the entries numbered `from`, in the order of
    the directory, and those are exactly the processes that stayed.
   */
  ghost predicate Lists(table: seq<Hash>, entries: seq<Entry>, from: seq<nat>, sys: System) {
    && |from| == |table|
    && Increasing(from)
    && (forall k | 0 <= k < |from| :: ListsOne(table, entries, from, sys, k))
    && (forall i | 0 <= i < |entries| && Stays(entries[i]) :: i in from)
  }

  ghost predicate ListsOne(table: seq<Hash>, entries: seq<Entry>, from: seq<nat>, sys: System, k: nat)
    requires k < |table| == |from|
  {
    from[k] < |entries| && Stays(entries[from[k]]) && Record(entries[from[k]].proc, sys) == Some(table[k])
  }

  lemma TableLists(entries: seq<Entry>, sys: System) returns (from: seq<nat>)
    ensures Lists(TableOf(entries, sys), entries, from, sys)
  {
    var report := e => EntryTable(e, sys);
    TableIsScan(entries, sys, report);
    from := ScanLists(entries, report);
    var table := TableOf(entries, sys);
    forall k | 0 <= k < |table| ensures ListsOne(table, entries, from, sys, k) {
      assert ReportOf(entries, report, from[k], table[k]);
      OneListed(entries[from[k]], sys, table[k]);
    }
    forall i | 0 <= i < |entries| && Stays(entries[i]) ensures i in from {
      StaysListed(entries[i], sys);
    }
  }

  lemma {:induction false} TableIsScan(entries: seq<Entry>, sys: System, report: Entry -> seq<Hash>)
    requires forall e :: report(e) == EntryTable(e, sys)
    ensures TableOf(entries, sys) == Scan(entries, report)
  {
    if entries != [] {
      TableIsScan(entries[..|entries| - 1], sys, report);
    }
  }

  lemma OneListed(e: Entry, sys: System, h: Hash)
    requires EntryTable(e, sys) == [h]
    ensures Stays(e) && Record(e.proc, sys) == Some(h)
  {
    DigitsAre(e.name);
  }

  lemma StaysListed(e: Entry, sys: System)
    requires Stays(e)
    ensures EntryTable(e, sys) != []
  {
    DigitsAre(e.name);
    RecordExists(e.proc, sys);
  }

  lemma DigitsAre(name: seq<char>)
    ensures IsPid(name) <==> forall i | 0 <= i < |name| :: '0' <= name[i] <= '9'
  {
  }

  lemma WalkStep(entries: seq<Entry>, i: nat, sys: System)
    requires i < |entries|
    ensures TableOf(entries[..i + 1], sys) == TableOf(entries[..i], sys) + EntryTable(entries[i], sys)
    ensures Gone(entries[..i + 1]) == Gone(entries[..i]) + EntryGone(entries[i])
  {
    assert entries[..i + 1][..i] == entries[..i];
  }

  lemma EntryIs(e: Entry, sys: System)
    ensures if forall i | 0 <= i < |e.name| :: '0' <= e.name[i] <= '9' then
              && Record(e.proc, sys).Some?
              && EntryTable(e, sys) == (if Vanished(e.proc) then [] else [Record(e.proc, sys).value])
              && EntryGone(e) == (if Vanished(e.proc) then 1 else 0)
              && IsPid(e.name)
            else
              EntryTable(e, sys) == [] && EntryGone(e) == 0
  {
    DigitsAre(e.name);
    RecordExists(e.proc, sys);
  }

  /** The rest of the loop's body, for an entry that is a process. */
  method OneRow(ob: Obstack, p: Proc, sys: System) returns (ok: bool, out: seq<Hash>)
    requires ob.Valid() && ob.growing == [] && ProcFits(p) && Record(p, sys).Some?
    modifies ob, ob.mem, ob.allocator
    ensures ok <==> ob.failures == old(ob.failures)
    ensures ok ==> ob.Valid() && ob.growing == []
    ensures ok ==> out == if Vanished(p) then [] else [Record(p, sys).value]
    ensures ok ==> |ob.objects| == |old(ob.objects)| + (if Vanished(p) then 2 else 0)
    ensures ok ==> ob.objects[..|old(ob.objects)|] == old(ob.objects)
  {
    var r;
    ok, r := OneProcess(ob, p, sys);
    out := if r.Some? then [r.value] else [];
  }

  /** The body of the loop. */
  method OneEntry(ob: Obstack, e: Entry, sys: System) returns (ok: bool, out: seq<Hash>)
    requires ob.Valid() && ob.growing == [] && EntryFits(e)
    modifies ob, ob.mem, ob.allocator
    ensures ok <==> ob.failures == old(ob.failures)
    ensures ok ==> ob.Valid() && ob.growing == [] && out == EntryTable(e, sys)
    ensures ok ==> |ob.objects| == |old(ob.objects)| + 2 * EntryGone(e)
    ensures ok ==> ob.objects[..|old(ob.objects)|] == old(ob.objects)
  {
    ok, out := true, [];
    EntryIs(e, sys);
    var isPid := CheckPid(e.name);
    if isPid {
      ok, out := OneRow(ob, e.proc, sys);
    }
  }

  lemma FrontKept(before: seq<Obj>, mid: seq<Obj>, after: seq<Obj>)
    requires |before| <= |mid| <= |after| && mid[..|before|] == before && after[..|mid|] == mid
    ensures after[..|before|] == before
  {
    assert after[..|before|] == after[..|mid|][..|before|];
  }

  /** The loop over the directory. */
  method Walk(ob: Obstack, entries: seq<Entry>, sys: System)
    returns (ok: bool, table: seq<Hash>, ghost from: seq<nat>)
    requires ob.Valid() && ob.growing == []
    requires forall i | 0 <= i < |entries| :: EntryFits(entries[i])
    modifies ob, ob.mem, ob.allocator
    ensures ok <==> ob.failures == old(ob.failures)
    ensures ok ==> ob.Valid() && ob.growing == [] && table == TableOf(entries, sys)
    ensures ok ==> Lists(table, entries, from, sys)
    ensures ok ==> |ob.objects| == |old(ob.objects)| + 2 * Gone(entries)
    ensures ok ==> ob.objects[..|old(ob.objects)|] == old(ob.objects)
  {
    ok, table, from := true, [], [];
    var i := 0;
    while i < |entries|
      invariant 0 <= i <= |entries| && ok
      invariant ob.Valid() && ob.growing == [] && ob.failures == old(ob.failures)
      invariant table == TableOf(entries[..i], sys)
      invariant |ob.objects| == |old(ob.objects)| + 2 * Gone(entries[..i])
      invariant ob.objects[..|old(ob.objects)|] == old(ob.objects)
    {
      WalkStep(entries, i, sys);
      ghost var mid := ob.objects;
      var out;
      ok, out := OneEntry(ob, entries[i], sys);
      if !ok {
        return;
      }
      table := table + out;
      FrontKept(old(ob.objects), mid, ob.objects);
      i := i + 1;
    }
    assert entries[..i] == entries;
    from := TableLists(entries, sys);
  }

  /**
    `OS_get_table`.  The table is the records of the processes that stayed, in
    order, and every chunk of the obstack is given back.  When `/proc` cannot be
    opened the function returns early, and its chunk is never given back.
   */
  method GetTable(ob: Obstack, entries: seq<Entry>, opens: bool, sys: System)
    returns (ok: bool, table: seq<Hash>, ghost from: seq<nat>)
    requires ob.chain == [] && ob.mem.Length == SPACE && ob.allocator.Valid() && ob.allocator.live == map[]
    requires forall i | 0 <= i < |entries| :: EntryFits(entries[i])
    modifies ob, ob.mem, ob.allocator
    ensures ok <==> ob.failures == old(ob.failures)
    ensures ok && opens ==> Lists(table, entries, from, sys) && ob.allocator.live == map[]
    ensures ok && !opens ==> table == [] && |ob.allocator.live| > 0
  {
    table, from := [], [];
    ok := ob.Begin(0, 0);
    if !ok {
      return;
    }
    var dirent;
    ok, dirent := ObstackAlloc(ob, DIRENT_SIZE);
    if !ok {
      return;
    }
    if !opens {
      assert InUseAs(ob.allocator.live, ob.chain[0]);
      return;
    }
    ok, table, from := Walk(ob, entries, sys);
    if ok {
      ob.FreeAll();
    }
  }
}
