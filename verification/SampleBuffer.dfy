/**
  The polling loop of contrib/pctcpu_example.pl: for each process a ring of
  CPU times indexed by the poll number modulo `num_steps`, and one ring of
  poll times.
 */
module SampleBuffer {
  import opened Bits

  /** A Perl array as far as its elements are defined. */
  type Ring = map<nat, int>

  /** One poll: the processes seen, with their CPU times, and the time of the poll. */
  datatype Poll = Poll(table: seq<(int, int)>, time: int)

  predicate Present(table: seq<(int, int)>, pid: int) {
    table != [] && (table[|table| - 1].0 == pid || Present(table[..|table| - 1], pid))
  }

  /** The CPU time a poll records for a process; of two entries for one pid the later stays. */
  function Sample(table: seq<(int, int)>, pid: int): int
    requires Present(table, pid)
  {
    var last := table[|table| - 1];
    if last.0 == pid then last.1 else Sample(table[..|table| - 1], pid)
  }

  /** The last entry for a process is the sample the poll records for it. */
  lemma {:induction false} SampleIs(table: seq<(int, int)>, pid: int, i: nat)
    requires i < |table| && table[i].0 == pid && forall j | i < j < |table| :: table[j].0 != pid
    ensures Present(table, pid) && Sample(table, pid) == table[i].1
  {
    if i < |table| - 1 {
      SampleIs(table[..|table| - 1], pid, i);
    }
  }

  /** And a process with no entry is not in the poll. */
  lemma {:induction false} Absent(table: seq<(int, int)>, pid: int)
    requires forall i | 0 <= i < |table| :: table[i].0 != pid
    ensures !Present(table, pid)
  {
    if table != [] {
      Absent(table[..|table| - 1], pid);
    }
  }

  /** In how many polls, counted back from the last one, the process has been there without a gap. */
  function Streak(history: seq<Poll>, pid: int): (n: nat)
    ensures n <= |history|
  {
    if history == [] || !Present(history[|history| - 1].table, pid) then 0
    else 1 + Streak(history[..|history| - 1], pid)
  }

  lemma {:induction false} StreakIs(history: seq<Poll>, pid: int, q: nat)
    requires q < |history|
    ensures q >= |history| - Streak(history, pid) ==> Present(history[q].table, pid)
    ensures q == |history| - Streak(history, pid) - 1 ==> !Present(history[q].table, pid)
  {
    if Streak(history, pid) > 0 && q < |history| - 1 {
      StreakIs(history[..|history| - 1], pid, q);
    }
  }

  /** Poll `q` is one of the last `n`, and the process has been there ever since. */
  predicate InReach(history: seq<Poll>, n: nat, pid: int, q: int) {
    |history| - Streak(history, pid) <= q < |history| && q + n >= |history|
  }

  /** The sample of poll `q` stands in its slot. */
  ghost predicate Recorded(history: seq<Poll>, n: nat, pid: int, ring: Ring, q: nat)
    requires n > 0 && q < |history|
  {
    Present(history[q].table, pid) && q % n in ring && ring[q % n] == Sample(history[q].table, pid)
  }

  ghost predicate FromReach(history: seq<Poll>, n: nat, pid: int, slot: nat)
    requires n > 0
  {
    exists q: nat :: InReach(history, n, pid, q) && q % n == slot
  }

  /** The ring of a process holds the samples of the polls in reach, each in its slot, and nothing else. */
  ghost predicate RingOf(history: seq<Poll>, n: nat, pid: int, ring: Ring)
    requires n > 0
  {
    && (forall q: nat | InReach(history, n, pid, q) :: Recorded(history, n, pid, ring, q))
    && (forall slot | slot in ring :: FromReach(history, n, pid, slot))
  }

  /** Different poll numbers with the same slot are at least a whole ring apart. */
  lemma SameSlotApart(a: nat, b: nat, n: nat)
    requires n > 0 && b < a && a % n == b % n
    ensures a - b >= n
  {
    var k := a / n - b / n;
    assert a - b == k * n;
    if k >= 1 {
      MulAtLeast(k, n);
    }
  }

  lemma ModSame(b: nat, n: nat)
    requires n > 0
    ensures (b + n) % n == b % n
  {
    assert b + n == (b / n + 1) * n + b % n;
    ModUnique(b + n, n, b / n + 1, b % n);
  }

  /** One more poll in which the process is there: its sample goes over the one that has just left the reach. */
  lemma RingStep(history: seq<Poll>, n: nat, pid: int, ring: Ring, poll: Poll)
    requires n > 0 && Present(poll.table, pid)
    requires RingOf(history, n, pid, ring)
    ensures RingOf(history + [poll], n, pid, ring[|history| % n := Sample(poll.table, pid)])
  {
    var after := history + [poll];
    var last := |history|;
    var ring' := ring[last % n := Sample(poll.table, pid)];
    assert after[..last] == history;
    forall q: nat | InReach(after, n, pid, q) ensures Recorded(after, n, pid, ring', q) {
      if q < last {
        assert InReach(history, n, pid, q) && Recorded(history, n, pid, ring, q);
        if last % n == q % n {
          SameSlotApart(last, q, n);
        }
      }
    }
    forall slot | slot in ring' ensures FromReach(after, n, pid, slot) {
      if slot == last % n {
        assert InReach(after, n, pid, last);
      } else {
        assert FromReach(history, n, pid, slot);
        var q: nat :| InReach(history, n, pid, q) && q % n == slot;
        if q + n == last {
          ModSame(q, n);
        }
        assert InReach(after, n, pid, q);
      }
    }
  }

  /** A process not in the last poll has nothing in reach. */
  lemma RingEmpty(history: seq<Poll>, n: nat, pid: int)
    requires n > 0 && Streak(history, pid) == 0
    ensures RingOf(history, n, pid, map[])
  {
  }

  /**
    The slot the report compares with holds the sample of exactly `n - 1` polls
    before the last, if the process has been there in every poll since then, and
    is undefined otherwise.
   */
  lemma OldSlot(history: seq<Poll>, n: nat, pid: int, ring: Ring)
    requires n > 0 && |history| >= n && RingOf(history, n, pid, ring)
    ensures |history| % n in ring <==> Streak(history, pid) >= n
    ensures Streak(history, pid) >= n ==>
              && Present(history[|history| - n].table, pid)
              && ring[|history| % n] == Sample(history[|history| - n].table, pid)
  {
    var oldest := |history| - n;
    ModSame(oldest, n);
    if Streak(history, pid) >= n {
      assert InReach(history, n, pid, oldest) && Recorded(history, n, pid, ring, oldest);
    } else if |history| % n in ring {
      assert FromReach(history, n, pid, |history| % n);
      var q: nat :| InReach(history, n, pid, q) && q % n == |history| % n;
      SameSlotApart(|history|, q, n);
    }
  }

  lemma Inhabited(s: set<int>)
    requires s != {}
    ensures exists x :: x in s
  {
    assert (forall x :: x !in s) ==> s == {};
  }

  /** The line computed for a process: its last sample, the one it is compared with, and the time between them. */
  datatype Line = Line(now: int, before: int, span: int)

  ghost function LineFor(history: seq<Poll>, n: nat, pid: int): Line
    requires 0 < n <= |history| && Streak(history, pid) > 0
  {
    StreakIs(history, pid, |history| - 1);
    StreakIs(history, pid, |history| - n);
    Line(Sample(history[|history| - 1].table, pid),
         if Streak(history, pid) >= n then Sample(history[|history| - n].table, pid) else 0,
         history[|history| - 1].time - history[|history| - n].time)
  }

  ghost predicate TimeAt(history: seq<Poll>, n: nat, spans: Ring, q: nat)
    requires n > 0 && q < |history|
  {
    q % n in spans && spans[q % n] == history[q].time
  }

  /** The ring of poll times holds the last `n`. */
  ghost predicate TimesKept(history: seq<Poll>, n: nat, spans: Ring)
    requires n > 0
  {
    forall q: nat | q < |history| && q + n >= |history| :: TimeAt(history, n, spans, q)
  }

  lemma TimesStep(history: seq<Poll>, n: nat, spans: Ring, poll: Poll)
    requires n > 0 && TimesKept(history, n, spans)
    ensures TimesKept(history + [poll], n, spans[|history| % n := poll.time])
  {
    var after := history + [poll];
    var spans' := spans[|history| % n := poll.time];
    forall q: nat | q < |after| && q + n >= |after| ensures TimeAt(after, n, spans', q) {
      if q < |history| {
        assert TimeAt(history, n, spans, q);
        if |history| % n == q % n {
          SameSlotApart(|history|, q, n);
        }
      }
    }
  }

  /** The slots a line is computed from. */
  lemma SlotsReported(history: seq<Poll>, n: nat, pid: int, ring: Ring, spans: Ring)
    requires 0 < n <= |history| && Streak(history, pid) > 0
    requires RingOf(history, n, pid, ring) && TimesKept(history, n, spans)
    ensures var cur, old_ := (|history| - 1) % n, |history| % n;
            && cur in ring && cur in spans && old_ in spans
            && LineFor(history, n, pid) ==
               Line(ring[cur], if old_ in ring then ring[old_] else 0, spans[cur] - spans[old_])
  {
    OldSlot(history, n, pid, ring);
    assert InReach(history, n, pid, |history| - 1) && Recorded(history, n, pid, ring, |history| - 1);
    ModSame(|history| - n, n);
    assert TimeAt(history, n, spans, |history| - 1) && TimeAt(history, n, spans, |history| - n);
  }

  class Sampler {
    const numSteps: nat
    var curStep: nat
    var cpuTimes: map<int, Ring>
    var timeSpans: Ring
    ghost var history: seq<Poll>

    ghost predicate Valid()
      reads this
    {
      && numSteps > 0
      && curStep == |history|
      && (forall pid :: pid in cpuTimes <==> Streak(history, pid) > 0)
      && (forall pid | pid in cpuTimes :: RingOf(history, numSteps, pid, cpuTimes[pid]))
      && TimesKept(history, numSteps, timeSpans)
    }

    constructor (n: nat)
      requires n > 0
      ensures Valid() && numSteps == n && history == []
    {
      numSteps := n;
      curStep, cpuTimes, timeSpans, history := 0, map[], map[], [];
    }

    /** The loop over the processes of a poll. */
    method Record(table: seq<(int, int)>, slot: nat) returns (active: set<int>)
      modifies this`cpuTimes
      ensures forall pid :: pid in active <==> Present(table, pid)
      ensures forall pid :: pid in cpuTimes <==> pid in old(cpuTimes) || Present(table, pid)
      ensures forall pid | Present(table, pid) ::
                cpuTimes[pid] ==
                (if pid in old(cpuTimes) then old(cpuTimes)[pid] else map[])[slot := Sample(table, pid)]
    {
      active := {};
      var i := 0;
      while i < |table|
        invariant 0 <= i <= |table|
        invariant forall pid :: pid in active <==> Present(table[..i], pid)
        invariant forall pid :: pid in cpuTimes <==> pid in old(cpuTimes) || Present(table[..i], pid)
        invariant forall pid | pid in cpuTimes ::
                    cpuTimes[pid] == if Present(table[..i], pid)
                    then (if pid in old(cpuTimes) then old(cpuTimes)[pid] else map[])[slot := Sample(table[..i], pid)]
                    else old(cpuTimes)[pid]
      {
        var (pid, time) := table[i];
        assert table[..i + 1][..i] == table[..i];
        active := active + {pid};
        if pid !in cpuTimes {
          cpuTimes := cpuTimes[pid := map[]];
        }
        var ring: Ring := cpuTimes[pid];
        ring := ring[slot := time];
        cpuTimes := cpuTimes[pid := ring];
        i := i + 1;
      }
      assert table[..i] == table;
    }

    /** The loop that prints a line for each process. */
    method Report(curIdx: nat, oldIdx: nat) returns (report: map<int, Line>)
      requires numSteps > 0 && |history| >= numSteps && TimesKept(history, numSteps, timeSpans)
      requires curIdx == (|history| - 1) % numSteps && oldIdx == |history| % numSteps
      requires forall pid | pid in cpuTimes :: Streak(history, pid) > 0 && RingOf(history, numSteps, pid, cpuTimes[pid])
      ensures report.Keys == cpuTimes.Keys
      ensures forall pid | pid in report :: Streak(history, pid) > 0 && report[pid] == LineFor(history, numSteps, pid)
    {
      report := map[];
      var todo: set<int> := cpuTimes.Keys;
      while todo != {}
        invariant todo <= cpuTimes.Keys && report.Keys == cpuTimes.Keys - todo
        invariant forall pid | pid in report ::
                    Streak(history, pid) > 0 && report[pid] == LineFor(history, numSteps, pid)
        decreases |todo|
      {
        Inhabited(todo);
        var pid :| pid in todo;
        var ring := cpuTimes[pid];
        SlotsReported(history, numSteps, pid, ring, timeSpans);
        report := report[pid := Line(ring[curIdx], if oldIdx in ring then ring[oldIdx] else 0,
                                     timeSpans[curIdx] - timeSpans[oldIdx])];
        todo := todo - {pid};
      }
    }

    /**
      One turn of the loop.  A report is made once more than `numSteps` polls
      have been taken; it covers the processes of this poll, and compares each
      with its sample of `numSteps - 1` polls ago, or with 0 if it has not been
      there all the time since.
     */
    method TakePoll(table: seq<(int, int)>, t: int) returns (report: map<int, Line>)
      requires Valid()
      modifies this
      ensures Valid() && history == old(history) + [Poll(table, t)]
      ensures |history| <= numSteps ==> report == map[]
      ensures |history| > numSteps ==> forall pid :: pid in report <==> Present(table, pid)
      ensures |history| > numSteps ==>
                forall pid | pid in report :: Streak(history, pid) > 0 && report[pid] == LineFor(history, numSteps, pid)
    {
      var curIdx := curStep % numSteps;
      var oldIdx := (curStep + 1) % numSteps;
      ghost var was := history;
      ghost var rings := cpuTimes;
      var active := Record(table, curIdx);
      timeSpans := timeSpans[curIdx := t];
      var killed := cpuTimes.Keys - active;
      cpuTimes := cpuTimes - killed;
      history := history + [Poll(table, t)];
      assert history[..|was|] == was;
      forall pid | pid in cpuTimes ensures RingOf(history, numSteps, pid, cpuTimes[pid]) {
        if pid !in rings {
          RingEmpty(was, numSteps, pid);
        }
        RingStep(was, numSteps, pid, if pid in rings then rings[pid] else map[], Poll(table, t));
      }
      TimesStep(was, numSteps, old(timeSpans), Poll(table, t));
      report := map[];
      if curStep >= numSteps {
        report := Report(curIdx, oldIdx);
      }
      curStep := curStep + 1;
    }
  }
}
