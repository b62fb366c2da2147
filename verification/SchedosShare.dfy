/** Proportional-share scheduling in WeensyOS/weensyos2/schedos-kern.c (algorithm
    3): the loop that looks for the next process, and what it deals out. */
module SchedosShare {
  import opened Common

  const NPROCS: nat := 5

  datatype State = Empty | Runnable | Blocked | Zombie

  datatype Process = Process(state: State, share: int, runs: int)

  type Table = t: seq<Process> | |t| == NPROCS witness seq(NPROCS, i => Process(Empty, 0, 0))

  function Ran(t: Table, i: nat, runs: int): Table
    requires i < NPROCS
  {
    t[i := t[i].(runs := runs)]
  }

  /** The loop of `schedule` from process `pid` on, for at most `fuel` turns: the
      table it leaves and the process it runs. */
  function Search(t: Table, pid: nat, fuel: nat): (r: Option<(Table, nat)>)
    requires pid < NPROCS
    ensures r.Some? ==> r.value.1 < NPROCS
    decreases fuel
  {
    if fuel == 0 then None
    else if t[pid].state == Runnable then
      if t[pid].runs >= t[pid].share then Search(Ran(t, pid, 0), (pid + 1) % NPROCS, fuel - 1)
      else Some((Ran(t, pid, t[pid].runs + 1), pid))
    else Search(t, (pid + 1) % NPROCS, fuel - 1)
  }

  // ------------------------------------------------------------ when the loop ends

  predicate Eligible(p: Process) { p.state == Runnable && p.share > 0 }

  ghost predicate Counted(t: Table) { forall i :: 0 <= i < NPROCS ==> t[i].runs >= 0 }

  /** How far `q` lies ahead of `pid`, and once around when its count must first
      be cleared. */
  function Ahead(t: Table, pid: nat, q: nat): nat
    requires pid < NPROCS && q < NPROCS
  {
    (q - pid) % NPROCS + if t[q].runs >= t[q].share then NPROCS else 0
  }

  lemma {:induction false} SearchEnds(t: Table, pid: nat, q: nat, fuel: nat)
    requires pid < NPROCS && q < NPROCS && Eligible(t[q]) && fuel > Ahead(t, pid, q)
    ensures Search(t, pid, fuel).Some?
    decreases fuel
  {
    var next := (pid + 1) % NPROCS;
    if t[pid].state != Runnable {
      SearchEnds(t, next, q, fuel - 1);
    } else if t[pid].runs >= t[pid].share {
      SearchEnds(Ran(t, pid, 0), next, q, fuel - 1);
    }
  }

  lemma {:induction false} SearchSpins(t: Table, pid: nat, fuel: nat)
    requires pid < NPROCS && Counted(t) && forall i :: 0 <= i < NPROCS ==> !Eligible(t[i])
    ensures Search(t, pid, fuel).None?
    decreases fuel
  {
    if fuel > 0 {
      if t[pid].state == Runnable {
        SearchSpins(Ran(t, pid, 0), (pid + 1) % NPROCS, fuel - 1);
      } else {
        SearchSpins(t, (pid + 1) % NPROCS, fuel - 1);
      }
    }
  }

  /** The loop ends exactly when some runnable process has a positive share, and
      then within two rounds; otherwise it clears counts for ever. */
  lemma EndsExactly(t: Table, pid: nat)
    requires pid < NPROCS && Counted(t)
    ensures (exists i :: 0 <= i < NPROCS && Eligible(t[i])) <==> exists fuel :: Search(t, pid, fuel).Some?
    ensures (exists i :: 0 <= i < NPROCS && Eligible(t[i])) <==> Search(t, pid, 2 * NPROCS).Some?
  {
    if exists i :: 0 <= i < NPROCS && Eligible(t[i]) {
      var q :| 0 <= q < NPROCS && Eligible(t[q]);
      SearchEnds(t, pid, q, 2 * NPROCS);
    } else {
      forall fuel ensures Search(t, pid, fuel).None? { SearchSpins(t, pid, fuel); }
    }
  }

  lemma {:induction false} MoreFuel(t: Table, pid: nat, fuel: nat, more: nat)
    requires pid < NPROCS && Search(t, pid, fuel).Some? && more >= fuel
    ensures Search(t, pid, more) == Search(t, pid, fuel)
    decreases fuel
  {
    var next := (pid + 1) % NPROCS;
    if t[pid].state != Runnable {
      MoreFuel(t, next, fuel - 1, more - 1);
    } else if t[pid].runs >= t[pid].share {
      MoreFuel(Ran(t, pid, 0), next, fuel - 1, more - 1);
    }
  }

  // ------------------------------------------------------------ what it picks

  /** With every runnable process entitled to run, only the current one has used
      up part of its share. */
  ghost predicate Steady(t: Table, c: nat) {
    && c < NPROCS && Counted(t)
    && (forall i :: 0 <= i < NPROCS && t[i].state == Runnable ==> t[i].share > 0)
    && (forall i :: 0 <= i < NPROCS && t[i].state == Runnable && i != c ==> t[i].runs == 0)
    && (t[c].state == Runnable ==> t[c].runs <= t[c].share)
    && (exists i :: 0 <= i < NPROCS && t[i].state == Runnable)
  }

  predicate IdleAt(t: Table, c: nat, k: nat) { t[(c + k) % NPROCS].state != Runnable }

  /** The distance from `c` to the next runnable process, counted from `d` on; a
      process alone comes after itself. */
  function Gap(t: Table, c: nat, d: nat): (g: nat)
    requires c < NPROCS && d <= NPROCS
    ensures d <= g <= NPROCS
    ensures g < NPROCS ==> t[(c + g) % NPROCS].state == Runnable
    ensures forall k :: d <= k < g ==> IdleAt(t, c, k)
    decreases NPROCS - d
  {
    if d == NPROCS || t[(c + d) % NPROCS].state == Runnable then d else Gap(t, c, d + 1)
  }

  function Next(t: Table, c: nat): nat
    requires c < NPROCS
  {
    (c + Gap(t, c, 1)) % NPROCS
  }

  lemma {:induction false} SkipTo(t: Table, c: nat, d: nat, g: nat, fuel: nat)
    requires c < NPROCS && d <= g <= NPROCS && fuel > g - d
    requires forall k :: d <= k < g ==> IdleAt(t, c, k)
    requires var n := (c + g) % NPROCS; t[n].state == Runnable && t[n].runs < t[n].share
    ensures var n := (c + g) % NPROCS; Search(t, (c + d) % NPROCS, fuel) == Some((Ran(t, n, t[n].runs + 1), n))
    decreases g - d
  {
    if d < g {
      assert IdleAt(t, c, d) && ((c + d) % NPROCS + 1) % NPROCS == (c + (d + 1)) % NPROCS;
      SkipTo(t, c, d + 1, g, fuel - 1);
    }
  }

  /** One call of `schedule`: the current process goes on until its share is used
      up; then its count is cleared and the next runnable one starts at one. */
  lemma ScheduleExact(t: Table, c: nat)
    requires Steady(t, c)
    ensures Search(t, c, 2 * NPROCS) == Some(
      if t[c].state == Runnable && t[c].runs < t[c].share then (Ran(t, c, t[c].runs + 1), c)
      else
        var t' := if t[c].state == Runnable then Ran(t, c, 0) else t;
        (Ran(t', Next(t, c), 1), Next(t, c)))
  {
    if !(t[c].state == Runnable && t[c].runs < t[c].share) {
      var t' := if t[c].state == Runnable then Ran(t, c, 0) else t;
      assert Search(t, c, 2 * NPROCS) == Search(t', (c + 1) % NPROCS, 2 * NPROCS - 1);
      SomeoneAhead(t, c);
      hide Search;
      FoundNext(t, t', c);
    }
  }

  lemma FoundNext(t: Table, t': Table, c: nat)
    requires Steady(t, c) && t' == (if t[c].state == Runnable then Ran(t, c, 0) else t)
    requires t[Next(t, c)].state == Runnable
    ensures Search(t', (c + 1) % NPROCS, 2 * NPROCS - 1) == Some((Ran(t', Next(t, c), 1), Next(t, c)))
  {
    hide Search;
    var g := Gap(t, c, 1);
    forall k | 1 <= k < g ensures IdleAt(t', c, k) {
      assert IdleAt(t, c, k);
    }
    assert t'[Next(t, c)].runs == 0;
    SkipTo(t', c, 1, g, 2 * NPROCS - 1);
  }

  /** The distance ahead leads there. */
  lemma There(c: nat, i: nat)
    requires c < NPROCS && i < NPROCS
    ensures (i - c) % NPROCS < NPROCS && (c + (i - c) % NPROCS) % NPROCS == i && ((i - c) % NPROCS == 0 <==> i == c)
  {
  }

  lemma SomeoneAhead(t: Table, c: nat)
    requires Steady(t, c)
    ensures t[Next(t, c)].state == Runnable
  {
    var i: nat :| i < NPROCS && t[i].state == Runnable;
    var k := (i - c) % NPROCS;
    There(c, i);
    var g := Gap(t, c, 1);
    hide Gap;
    assert !IdleAt(t, c, k);
    if g == NPROCS {
      assert k == 0;
    }
  }

  function Scheduled(t: Table, c: nat): (r: (Table, nat))
    requires c < NPROCS && Search(t, c, 2 * NPROCS).Some?
    ensures r.1 < NPROCS
  {
    Search(t, c, 2 * NPROCS).value
  }

  lemma StaysSteady(t: Table, c: nat)
    requires Steady(t, c)
    ensures Search(t, c, 2 * NPROCS).Some?
    ensures var (t', c') := Scheduled(t, c); Steady(t', c') && t'[c'].state == Runnable && 1 <= t'[c'].runs
    ensures forall i :: 0 <= i < NPROCS ==>
      Scheduled(t, c).0[i].state == t[i].state && Scheduled(t, c).0[i].share == t[i].share
  {
    ScheduleExact(t, c);
    SomeoneAhead(t, c);
    var (t', c') := Scheduled(t, c);
    assert t'[c'].state == Runnable;
  }

  // ------------------------------------------------------------ whole runs

  /** How far `i` lies behind the process that was dealt to first. */
  function Rank(s: nat, i: nat): nat
    requires s < NPROCS && i < NPROCS
  {
    (i - s) % NPROCS
  }

  /** How many dispatches `m` blocks of a share are. */
  function Blocks(share: int, m: nat): int { share * m }

  lemma OneMoreBlock(share: int, m: nat)
    ensures Blocks(share, m + 1) == Blocks(share, m) + share
  {
  }

  /** After `m` full rounds that began with `s`: whoever comes before the current
      process has had one block of its share more, the current process is within
      its block, and the others have had `m` blocks. */
  ghost predicate Dealt(t: Table, c: nat, s: nat, m: nat, d: seq<nat>) {
    && c < NPROCS && s < NPROCS && |d| == NPROCS && t[s].state == Runnable && t[c].state == Runnable
    && forall i :: 0 <= i < NPROCS && t[i].state == Runnable ==>
         d[i] == Blocks(t[i].share, m)
           + (if Rank(s, i) < Rank(s, c) then t[i].share else if i == c then t[c].runs else 0)
  }

  /** The next process in turn is the next in rank, or the first of a new round. */
  lemma NextInRank(t: Table, c: nat, s: nat)
    requires c < NPROCS && s < NPROCS && t[s].state == Runnable && t[c].state == Runnable
    ensures var n := Next(t, c);
      && t[n].state == Runnable
      && (n == s || Rank(s, c) < Rank(s, n))
      && forall i :: 0 <= i < NPROCS && t[i].state == Runnable ==>
           if n == s then Rank(s, i) <= Rank(s, c) else Rank(s, i) <= Rank(s, c) || Rank(s, n) <= Rank(s, i)
  {
    var g := Gap(t, c, 1);
    var n := Next(t, c);
    hide Gap, Rank;
    forall i: nat | i < NPROCS && t[i].state == Runnable ensures i == c || g <= (i - c) % NPROCS {
      There(c, i);
      assert !IdleAt(t, c, (i - c) % NPROCS);
    }
    if g == NPROCS { assert n == c; } else { assert !IdleAt(t, c, g); }
    forall i: nat | i < NPROCS && t[i].state == Runnable
      ensures if n == s then Rank(s, i) <= Rank(s, c)
          else Rank(s, c) < Rank(s, n) && (Rank(s, i) <= Rank(s, c) || Rank(s, n) <= Rank(s, i))
    {
      RankArithmetic(s, c, g, i);
    }
  }

  lemma RankArithmetic(s: nat, c: nat, g: nat, i: nat)
    requires s < NPROCS && c < NPROCS && i < NPROCS && 1 <= g <= NPROCS
    requires (i == c || g <= (i - c) % NPROCS) && (s == c || g <= (s - c) % NPROCS)
    ensures var n := (c + g) % NPROCS;
      if n == s then Rank(s, i) <= Rank(s, c)
        else Rank(s, c) < Rank(s, n) && (Rank(s, i) <= Rank(s, c) || Rank(s, n) <= Rank(s, i))
  {
    Wrapped(i - c);
    Wrapped(s - c);
    Wrapped(c + g);
    Wrapped(i - s);
    Wrapped(c - s);
    Wrapped((c + g) % NPROCS - s);
  }

  lemma Wrapped(x: int)
    requires -(NPROCS as int) < x < 2 * NPROCS
    ensures x % NPROCS == if x < 0 then x + NPROCS else if x < NPROCS then x else x - NPROCS
  {
  }

  /** One more dispatch keeps the deal fair. */
  lemma DealtNext(t: Table, c: nat, s: nat, m: nat, d: seq<nat>) returns (m': nat)
    requires Steady(t, c) && Dealt(t, c, s, m, d) && 1 <= t[c].runs
    ensures Search(t, c, 2 * NPROCS).Some?
    ensures var (t', c') := Scheduled(t, c); Dealt(t', c', s, m', d[c' := d[c'] + 1]) && m <= m'
  {
    ScheduleExact(t, c);
    StaysSteady(t, c);
    NextInRank(t, c, s);
    var (t', c') := Scheduled(t, c);
    if t[c].runs < t[c].share {
      m' := m;
    } else {
      m' := if c' == s then m + 1 else m;
      NextDeal(t, c, s, m, d, t', c', m');
    }
  }

  lemma NextDeal(t: Table, c: nat, s: nat, m: nat, d: seq<nat>, t': Table, c': nat, m': nat)
    requires Steady(t, c) && Dealt(t, c, s, m, d) && t[c].runs == t[c].share
    requires c' == Next(t, c) && t' == Ran(Ran(t, c, 0), c', 1) && m' == if c' == s then m + 1 else m
    ensures Dealt(t', c', s, m', d[c' := d[c'] + 1])
  {
    NextInRank(t, c, s);
    hide Next, Rank, Blocks;
    RankZero(s, c);
    forall i: nat | i < NPROCS && t'[i].state == Runnable
      ensures d[c' := d[c'] + 1][i] == Blocks(t'[i].share, m')
        + (if Rank(s, i) < Rank(s, c') then t'[i].share else if i == c' then t'[c'].runs else 0)
    {
      OneMoreBlock(t[i].share, m);
      RankZero(s, i);
      SameRank(s, i, c);
      SameRank(s, i, c');
    }
  }

  lemma RankZero(s: nat, i: nat)
    requires s < NPROCS && i < NPROCS
    ensures Rank(s, i) == 0 <==> i == s
  {
    Wrapped(i - s);
  }

  lemma SameRank(s: nat, i: nat, j: nat)
    requires s < NPROCS && i < NPROCS && j < NPROCS
    ensures Rank(s, i) == Rank(s, j) <==> i == j
  {
    Wrapped(i - s);
    Wrapped(j - s);
  }

  /** Any number of clock ticks: `d` counts how often each process was dispatched. */
  ghost predicate Follows(t: Table, c: nat, d: seq<nat>, n: nat, t': Table, c': nat, d': seq<nat>)
    requires |d| == NPROCS
    decreases n
  {
    if n == 0 then t' == t && c' == c && d' == d
    else
      && c < NPROCS && Search(t, c, 2 * NPROCS).Some?
      && var (t1, c1) := Scheduled(t, c);
         c1 < NPROCS && Follows(t1, c1, d[c1 := d[c1] + 1], n - 1, t', c', d')
  }

  lemma {:induction false} RunsAreDealt(
      t: Table, c: nat, s: nat, m: nat, d: seq<nat>, n: nat, t': Table, c': nat, d': seq<nat>)
    returns (m': nat)
    requires Steady(t, c) && Dealt(t, c, s, m, d) && 1 <= t[c].runs && Follows(t, c, d, n, t', c', d')
    ensures Steady(t', c') && Dealt(t', c', s, m', d') && m <= m'
    decreases n
  {
    if n == 0 {
      m' := m;
    } else {
      StaysSteady(t, c);
      var m1 := DealtNext(t, c, s, m, d);
      var (t1, c1) := Scheduled(t, c);
      m' := RunsAreDealt(t1, c1, s, m1, d[c1 := d[c1] + 1], n - 1, t', c', d');
    }
  }

  lemma RoundsOf(share: nat, m: nat, x: nat)
    requires share > 0 && x <= share
    ensures m <= (share * m + x) / share <= m + 1
  {
    if x == share {
      assert share * m + x == share * (m + 1);
      Quotient(share * m + x, share, m + 1, 0);
    } else {
      Quotient(share * m + x, share, m, x);
    }
  }

  /** Over any run without exits, the completed rounds of two runnable processes
      differ by at most one, and a process alone with a positive count is the one
      that runs. */
  lemma RunsAreFair(t: Table, s: nat, n: nat, t': Table, c': nat, d': seq<nat>, i: nat, j: nat)
    requires Steady(t, s) && t[s].state == Runnable && t[s].runs == 1 && i < NPROCS && j < NPROCS
    requires Follows(t, s, seq(NPROCS, k => if k == s then 1 else 0), n, t', c', d')
    requires c' < NPROCS && |d'| == NPROCS && t'[i].state == Runnable && t'[j].state == Runnable
    ensures Steady(t', c') && t'[i].share > 0 && t'[j].share > 0
    ensures d'[i] / t'[i].share <= d'[j] / t'[j].share + 1
  {
    var d: seq<nat> := seq(NPROCS, k => if k == s then 1 else 0);
    assert Dealt(t, s, s, 0, d);
    var m := RunsAreDealt(t, s, s, 0, d, n, t', c', d');
    RoundsOf(t'[i].share, m, d'[i] - t'[i].share * m);
    RoundsOf(t'[j].share, m, d'[j] - t'[j].share * m);
  }

  // ------------------------------------------------------------ the kernel

  /** A turn of the loop that runs nobody comes closer to `q`. */
  lemma Turn(t: Table, t': Table, pid: nat, q: nat, fuel: nat)
    requires pid < NPROCS && q < NPROCS && Counted(t) && Eligible(t[q]) && fuel > Ahead(t, pid, q)
    requires if t[pid].state == Runnable then t[pid].runs >= t[pid].share && t' == Ran(t, pid, 0) else t' == t
    ensures Counted(t') && Eligible(t'[q]) && fuel - 1 > Ahead(t', (pid + 1) % NPROCS, q)
    ensures Search(t, pid, fuel) == Search(t', (pid + 1) % NPROCS, fuel - 1)
  {
    Wrapped(q - pid);
    Wrapped(pid + 1);
    Wrapped(q - (pid + 1) % NPROCS);
  }

  lemma Dispatched(t: Table, pid: nat, fuel: nat)
    requires pid < NPROCS && fuel > 0 && t[pid].state == Runnable && t[pid].runs < t[pid].share
    ensures Search(t, pid, fuel) == Some((Ran(t, pid, t[pid].runs + 1), pid))
  {
  }

  /** Whoever is picked was runnable. */
  lemma {:induction false} PicksRunnable(t: Table, pid: nat, fuel: nat)
    requires pid < NPROCS && Search(t, pid, fuel).Some?
    ensures var (t', c) := Search(t, pid, fuel).value;
      && c < NPROCS && t[c].state == Runnable && t'[c].runs <= t'[c].share && (Counted(t) ==> 0 < t'[c].runs)
      && forall i :: 0 <= i < NPROCS ==> t'[i].state == t[i].state
    decreases fuel
  {
    var next := (pid + 1) % NPROCS;
    if t[pid].state != Runnable {
      PicksRunnable(t, next, fuel - 1);
    } else if t[pid].runs >= t[pid].share {
      PicksRunnable(Ran(t, pid, 0), next, fuel - 1);
    }
  }

  /** A new share for the running process leaves the round in order exactly when it
      is positive and not less than what the process has run of it. */
  lemma ShareKeepsSteady(t: Table, c: nat, share: int)
    requires Steady(t, c) && t[c].state == Runnable
    ensures Steady(t[c := t[c].(share := share)], c) <==> 0 < share && t[c].runs <= share
  {
    var t' := t[c := t[c].(share := share)];
    assert t'[c].state == Runnable;
  }

  class Kernel {
    const procs: array<Process>
    var current: nat

    ghost predicate Valid()
      reads this, procs
    {
      procs.Length == NPROCS && current < NPROCS && Counted(procs[..])
    }

    /** The end of `start`: slot 0 is never a process, process 1 is dispatched first. */
    constructor ()
      ensures Valid() && fresh(procs) && current == 1
      ensures procs[0].state == Empty
      ensures forall i :: 1 <= i < NPROCS ==> procs[i] == Process(Runnable, 0, if i == 1 then 1 else 0)
    {
      procs := new Process[NPROCS](_ => Process(Empty, 0, 0));
      new;
      var i := 1;
      while i < NPROCS
        invariant 1 <= i <= NPROCS && procs[0] == Process(Empty, 0, 0)
        invariant forall j :: 1 <= j < NPROCS ==> procs[j] == Process(if j < i then Runnable else Empty, 0, 0)
      {
        procs[i] := procs[i].(state := Runnable);
        i := i + 1;
      }
      procs[1] := procs[1].(runs := procs[1].runs + 1);
      current := 1;
    }

    /** `schedule` with algorithm 3.  Without an eligible process it would not end. */
    method Schedule()
      requires Valid() && exists i :: 0 <= i < NPROCS && Eligible(procs[i])
      modifies this, procs
      ensures Valid() && Search(old(procs[..]), old(current), 2 * NPROCS) == Some((procs[..], current))
    {
      ghost var q: nat :| q < NPROCS && Eligible(procs[q]);
      var pid: nat := current;
      ghost var fuel: nat := 2 * NPROCS;
      ghost var t0 := procs[..];
      while true
        invariant procs.Length == NPROCS && pid < NPROCS && Counted(procs[..]) && Eligible(procs[q])
        invariant fuel > Ahead(procs[..], pid, q)
        invariant Search(t0, old(current), 2 * NPROCS) == Search(procs[..], pid, fuel)
        invariant current == old(current)
        decreases fuel
      {
        hide Ahead, Search;
        ghost var t := procs[..];
        if procs[pid].state == Runnable {
          if procs[pid].runs >= procs[pid].share {
            procs[pid] := procs[pid].(runs := 0);
            assert procs[..] == Ran(t, pid, 0);
          } else {
            procs[pid] := procs[pid].(runs := procs[pid].runs + 1);
            assert procs[..] == Ran(t, pid, t[pid].runs + 1);
            Dispatched(t, pid, fuel);
            current := pid;
            return;
          }
        }
        Turn(t, procs[..], pid, q, fuel);
        pid := (pid + 1) % NPROCS;
        fuel := fuel - 1;
      }
    }

    /** `INT_SYS_EXIT`. */
    method Exit()
      requires Valid() && exists i :: 0 <= i < NPROCS && i != current && Eligible(procs[i])
      modifies this, procs
      ensures Valid()
      ensures Search(old(procs[..])[old(current) := old(procs[current]).(state := Zombie)], old(current), 2 * NPROCS)
           == Some((procs[..], current))
      ensures current != old(current) && procs[current].state == Runnable
      ensures 0 < procs[current].runs <= procs[current].share
      ensures procs[old(current)].state == Zombie
    {
      ghost var t := procs[..];
      ghost var i :| 0 <= i < NPROCS && i != current && Eligible(procs[i]);
      procs[current] := procs[current].(state := Zombie);
      assert procs[..] == t[current := t[current].(state := Zombie)];
      assert Eligible(procs[i]);
      ghost var dead := procs[..];
      PicksRunnable(dead, current, 2 * NPROCS) by { EndsExactly(dead, current); }
      Schedule();
    }

    /** `INT_SYS_SHARE`: the process goes on running.  Afterwards the scheduler ends
        if the new share is positive, and the round is still in order exactly when
        the process has not yet run more than that. */
    method SetShare(share: int)
      requires Valid()
      modifies procs
      ensures Valid() && current == old(current)
      ensures procs[..] == old(procs[..])[current := old(procs[current]).(share := share)]
      ensures old(procs[current]).state == Runnable && share > 0 ==> Search(procs[..], current, 2 * NPROCS).Some?
      ensures old(Steady(procs[..], current)) && old(procs[current]).state == Runnable ==>
                (Steady(procs[..], current) <==> 0 < share && procs[current].runs <= share)
    {
      ghost var t := procs[..];
      procs[current] := procs[current].(share := share);
      assert procs[..] == t[current := t[current].(share := share)];
      if t[current].state == Runnable {
        if Steady(t, current) {
          ShareKeepsSteady(t, current, share);
        }
        if share > 0 {
          assert Eligible(procs[..][current]);
          EndsExactly(procs[..], current);
        }
      }
    }
  }
}
