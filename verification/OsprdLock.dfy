/** The ticketed reader/writer lock of RAMDisk/osprd.c: one device, its ticket
    counters, its readers, its writer and the list of tickets that were given
    up.  Every method below is one region that the source runs under the
    device's mutex, or one evaluation of the condition it sleeps on. */
module OsprdLock {

  /** `writer` is negative when nobody writes.  `dead` is `terminated_tickets`. */
  datatype Device = Device(head: nat, tail: nat, numReaders: int, readers: seq<nat>, writer: int, dead: seq<nat>)

  datatype Answer = Success | Deadlock | Busy | Invalid | Interrupted

  // ------------------------------------------------------------ list of dead tickets

  predicate Ascending(s: seq<nat>) {
    forall i, j :: 0 <= i < j < |s| ==> s[i] < s[j]
  }

  /** `terminate_ticket`: in front of the first ticket that is not smaller. */
  function Insert(s: seq<nat>, t: nat): seq<nat> {
    if s == [] || s[0] >= t then [t] + s else [s[0]] + Insert(s[1..], t)
  }

  lemma {:induction false} InsertAt(s: seq<nat>, t: nat, k: nat)
    requires k <= |s|
    requires forall i :: 0 <= i < k ==> s[i] < t
    requires k < |s| ==> s[k] >= t
    ensures Insert(s, t) == s[..k] + [t] + s[k..]
  {
    if k > 0 {
      InsertAt(s[1..], t, k - 1);
      assert s[..k] == [s[0]] + s[1..][..k - 1];
    } else {
      assert s[..k] + [t] + s[k..] == [t] + s;
    }
  }

  /** A ticket that was not yet dead joins the list, which stays in order. */
  lemma {:induction false} InsertKeepsOrder(s: seq<nat>, t: nat)
    requires Ascending(s) && t !in s
    ensures Ascending(Insert(s, t))
    ensures forall x :: x in Insert(s, t) <==> x == t || x in s
  {
    if s != [] && s[0] < t {
      InsertKeepsOrder(s[1..], t);
      assert s == [s[0]] + s[1..];
      var r := Insert(s[1..], t);
      forall k | 0 <= k < |r| ensures s[0] < r[k] {
        assert r[k] in r;
      }
    }
  }

  /** Where one pass of `can_run_ticket` over the dead tickets below `ticket`
      leaves `ticket_tail`. */
  function Carried(dead: seq<nat>, tail: nat, ticket: nat): nat {
    if dead == [] || dead[0] >= ticket then tail
    else Carried(dead[1..], if dead[0] == tail then tail + 1 else tail, ticket)
  }

  /** One pass is enough: it moves the tail over dead tickets only, and stops at
      one that is alive or that is not below `ticket`. */
  lemma {:induction false} CarriedExact(dead: seq<nat>, tail: nat, ticket: nat)
    requires Ascending(dead)
    ensures tail <= Carried(dead, tail, ticket) <= if tail < ticket then ticket else tail
    ensures forall k: nat :: tail <= k < Carried(dead, tail, ticket) ==> k in dead
    ensures Carried(dead, tail, ticket) >= ticket || Carried(dead, tail, ticket) !in dead
    decreases |dead|
  {
    if dead != [] && dead[0] < ticket {
      var tail' := if dead[0] == tail then tail + 1 else tail;
      var r := Carried(dead[1..], tail', ticket);
      CarriedExact(dead[1..], tail', ticket);
      assert dead == [dead[0]] + dead[1..];
      forall k: nat | tail <= k < r ensures k in dead {
        if k != dead[0] { assert k in dead[1..]; }
      }
      if dead[0] > tail { assert tail !in dead[1..]; }
    }
  }

  /** What `can_run_ticket` answers: every ticket from the tail on is dead. */
  lemma {:induction false} RunsIffAllBelowAreDead(dead: seq<nat>, tail: nat, ticket: nat)
    requires Ascending(dead)
    ensures Carried(dead, tail, ticket) == ticket
       <==> tail <= ticket && forall k: nat :: tail <= k < ticket ==> k in dead
  {
    CarriedExact(dead, tail, ticket);
  }

  // ------------------------------------------------------------ regions, on values

  predicate CanRead(d: Device) { d.writer < 0 }

  predicate CanWrite(d: Device) { d.numReaders == 0 && d.writer < 0 }

  predicate Admits(d: Device, writable: bool) { if writable then CanWrite(d) else CanRead(d) }

  function Terminated(d: Device, ticket: nat): Device { d.(dead := Insert(d.dead, ticket)) }

  function Advanced(d: Device, ticket: nat): Device { d.(tail := Carried(d.dead, d.tail, ticket)) }

  /** The condition `can_write(d) && can_run_ticket(d, ticket)`, or the one for
      readers: the answer, and the device that asking leaves behind. */
  function Asked(d: Device, ticket: nat, writable: bool): (Device, bool) {
    if Admits(d, writable) then (Advanced(d, ticket), Advanced(d, ticket).tail == ticket) else (d, false)
  }

  function Granted(d: Device, pid: nat, writable: bool): Device {
    if writable then d.(writer := pid, tail := d.tail + 1)
    else d.(readers := [pid] + d.readers, numReaders := d.numReaders + 1, tail := d.tail + 1)
  }

  function Without(s: seq<nat>, p: nat): seq<nat> {
    if s == [] then [] else if s[0] == p then Without(s[1..], p) else [s[0]] + Without(s[1..], p)
  }

  function Released(d: Device, pid: nat, writable: bool): Device {
    if writable then d.(writer := -1)
    else d.(readers := Without(d.readers, pid),
            numReaders := d.numReaders - (|d.readers| - |Without(d.readers, pid)|))
  }

  predicate Distinct(s: seq<nat>) {
    forall i, j :: 0 <= i < j < |s| ==> s[i] != s[j]
  }

  lemma {:induction false} WithoutOne(s: seq<nat>, p: nat)
    requires Distinct(s)
    ensures Distinct(Without(s, p))
    ensures forall x :: x in Without(s, p) <==> x in s && x != p
    ensures |Without(s, p)| == |s| - (if p in s then 1 else 0)
  {
    if s != [] {
      WithoutOne(s[1..], p);
      assert s == [s[0]] + s[1..];
      assert s[0] !in s[1..];
    }
  }

  lemma {:induction false} WithoutAppend(s: seq<nat>, x: nat, p: nat)
    ensures Without(s + [x], p) == Without(s, p) + (if x == p then [] else [x])
  {
    if s == [] {
      assert [x][1..] == [];
    } else {
      assert (s + [x])[1..] == s[1..] + [x];
      WithoutAppend(s[1..], x, p);
    }
  }

  // ------------------------------------------------------------ the device

  /** `filp->f_mode` and `filp->f_flags & F_OSPRD_LOCKED` of a file opened for
      writing or else for reading. */
  class OpenFile {
    const writable: bool
    var locked: bool

    constructor (writable: bool)
      ensures this.writable == writable && !locked
    {
      this.writable, locked := writable, false;
    }
  }

  class Osprd {
    var ticketHead: nat
    var ticketTail: nat
    var numReaders: int
    var readers: seq<nat>
    var writer: int
    var terminated: seq<nat>

    constructor ()
      ensures View() == Device(0, 0, 0, [], -1, [])
    {
      ticketHead, ticketTail, numReaders, readers, writer, terminated := 0, 0, 0, [], -1, [];
    }

    function View(): Device
      reads this
    {
      Device(ticketHead, ticketTail, numReaders, readers, writer, terminated)
    }

    method TerminateTicket(ticket: nat)
      modifies this`terminated
      ensures View() == Terminated(old(View()), ticket)
    {
      var k := 0;
      while k < |terminated| && terminated[k] < ticket
        invariant k <= |terminated|
        invariant forall i :: 0 <= i < k ==> terminated[i] < ticket
      {
        k := k + 1;
      }
      InsertAt(terminated, ticket, k);
      terminated := terminated[..k] + [ticket] + terminated[k..];
    }

    method CanRunTicket(ticket: nat) returns (runs: bool)
      modifies this`ticketTail
      ensures View() == Advanced(old(View()), ticket)
      ensures runs <==> ticket == ticketTail
    {
      var k := 0;
      while k < |terminated| && terminated[k] < ticket
        invariant k <= |terminated|
        invariant Carried(terminated[k..], ticketTail, ticket) == Carried(terminated, old(ticketTail), ticket)
      {
        if terminated[k] == ticketTail {
          ticketTail := ticketTail + 1;
        }
        assert terminated[k..][1..] == terminated[k + 1..];
        k := k + 1;
      }
      runs := ticket == ticketTail;
    }

    method IsReader(pid: nat) returns (found: bool)
      ensures found <==> pid in readers
    {
      var k := 0;
      while k < |readers|
        invariant k <= |readers|
        invariant pid !in readers[..k]
      {
        if pid == readers[k] { return true; }
        assert readers[..k + 1] == readers[..k] + [readers[k]];
        k := k + 1;
      }
      assert readers[..k] == readers;
      return false;
    }

    /** The first region of both requests: a ticket, given up at once by the writer. */
    method TakeTicket(pid: nat) returns (ticket: nat, refused: bool)
      modifies this`ticketHead, this`terminated
      ensures ticket == old(ticketHead) && refused == (pid == writer)
      ensures View() == var d := old(View()).(head := ticket + 1); if refused then Terminated(d, ticket) else d
    {
      ticket := ticketHead;
      ticketHead := ticketHead + 1;
      refused := pid == writer;
      if refused {
        TerminateTicket(ticket);
      }
    }

    /** The second region of a request that may block. */
    method RefuseReader(pid: nat, ticket: nat) returns (refused: bool)
      modifies this`terminated
      ensures refused == (pid in readers)
      ensures View() == if refused then Terminated(old(View()), ticket) else old(View())
    {
      refused := IsReader(pid);
      if refused {
        TerminateTicket(ticket);
      }
    }

    /** The condition slept on, evaluated with or without the mutex. */
    method Ask(ticket: nat, writable: bool) returns (ready: bool)
      modifies this`ticketTail
      ensures (View(), ready) == Asked(old(View()), ticket, writable)
    {
      if writable {
        ready := numReaders == 0 && writer < 0;
      } else {
        ready := writer < 0;
      }
      if ready {
        ready := CanRunTicket(ticket);
      }
    }

    method Grant(pid: nat, filp: OpenFile)
      modifies this, filp`locked
      ensures View() == Granted(old(View()), pid, filp.writable) && filp.locked
    {
      if filp.writable {
        writer := pid;
      } else {
        readers := [pid] + readers;
        numReaders := numReaders + 1;
      }
      filp.locked := true;
      ticketTail := ticketTail + 1;
    }

    /** One turn of the loop in `osprd_ioctl` that holds the mutex. */
    method AcquireTurn(pid: nat, filp: OpenFile, ticket: nat) returns (granted: bool)
      modifies this, filp`locked
      ensures granted == Asked(old(View()), ticket, filp.writable).1
      ensures View() == var d := Asked(old(View()), ticket, filp.writable).0;
                        if granted then Granted(d, pid, filp.writable) else d
      ensures filp.locked == (granted || old(filp.locked))
    {
      granted := Ask(ticket, filp.writable);
      if granted {
        Grant(pid, filp);
      }
    }

    /** The second region of a request that never blocks. */
    method TryFinish(pid: nat, filp: OpenFile, ticket: nat) returns (r: Answer)
      modifies this, filp`locked
      ensures r == if pid !in old(readers) && Asked(old(View()), ticket, filp.writable).1 then Success else Busy
      ensures View() ==
              if pid in old(readers) then Terminated(old(View()), ticket)
              else var d := Asked(old(View()), ticket, filp.writable).0;
                   if r.Success? then Granted(d, pid, filp.writable) else Terminated(d, ticket)
      ensures filp.locked == (r.Success? || old(filp.locked))
    {
      var refused := RefuseReader(pid, ticket);
      if refused { return Busy; }
      var ready := Ask(ticket, filp.writable);
      if !ready {
        TerminateTicket(ticket);
        return Busy;
      }
      Grant(pid, filp);
      return Success;
    }

    /** The traversal that takes `pid` out of the readers and counts it off. */
    method RemoveReader(pid: nat)
      modifies this`readers, this`numReaders
      ensures View() == Released(old(View()), pid, false)
    {
      var kept: seq<nat>, k := [], 0;
      while k < |readers|
        invariant k <= |readers|
        invariant readers == old(readers)
        invariant kept == Without(readers[..k], pid)
        invariant numReaders == old(numReaders) - (k - |kept|)
      {
        WithoutAppend(readers[..k], readers[k], pid);
        assert readers[..k + 1] == readers[..k] + [readers[k]];
        if pid == readers[k] {
          numReaders := numReaders - 1;
        } else {
          kept := kept + [readers[k]];
        }
        k := k + 1;
      }
      assert readers[..k] == readers;
      readers := kept;
    }

    /** `OSPRDIOCRELEASE`. */
    method Release(pid: nat, filp: OpenFile) returns (r: Answer)
      modifies this, filp`locked
      ensures r == if old(filp.locked) then Success else Invalid
      ensures View() == if r.Success? then Released(old(View()), pid, filp.writable) else old(View())
      ensures !filp.locked
    {
      if !filp.locked { return Invalid; }
      if filp.writable {
        writer := -1;
      } else {
        RemoveReader(pid);
      }
      filp.locked := false;
      return Success;
    }

    /** `osprd_close_last`: gives the lock back if the file has it. */
    method CloseLast(pid: nat, filp: OpenFile)
      modifies this, filp`locked
      ensures View() == if old(filp.locked) then Released(old(View()), pid, filp.writable) else old(View())
      ensures !filp.locked
    {
      if filp.locked {
        var _ := Release(pid, filp);
      }
    }
  }
}
