/** The bounded buffer of a peer connection in P2P/osppeer.c: a circular array
    under two counters that wrap at 32 bits. */
module PeerBuffer {

  const TASKBUFSIZ: nat := 32768
  const WRAP: nat := 0x1_0000_0000

  type byte = x: int | 0 <= x < 256

  /** How many bytes lie between the counters, `tail - head` in 32 bits. */
  function Fill(head: nat, tail: nat): nat {
    (tail - head) % WRAP
  }

  /** The bytes received and not yet passed on, in order. */
  function Pending(buf: seq<byte>, head: nat, tail: nat): (r: seq<byte>)
    requires |buf| == TASKBUFSIZ
    ensures |r| == Fill(head, tail)
  {
    seq(Fill(head, tail), k requires 0 <= k => buf[(head + k) % TASKBUFSIZ])
  }

  /** What `read_to_taskbuf` offers to the system call, from the tail position on. */
  function RoomAt(head: nat, tail: nat): nat {
    var (headpos, tailpos) := (head % TASKBUFSIZ, tail % TASKBUFSIZ);
    if head == tail || headpos < tailpos then TASKBUFSIZ - tailpos else headpos - tailpos
  }

  /** What `write_from_taskbuf` offers, from the head position on. */
  function ReadyAt(head: nat, tail: nat): nat {
    var (headpos, tailpos) := (head % TASKBUFSIZ, tail % TASKBUFSIZ);
    if head == tail then 0 else if headpos < tailpos then tailpos - headpos else TASKBUFSIZ - headpos
  }

  predicate Counters(head: nat, tail: nat) { head < WRAP && tail < WRAP && Fill(head, tail) <= TASKBUFSIZ }

  /** Where the counters stand in the array, whichever of them has wrapped. */
  lemma Positions(head: nat, tail: nat)
    requires Counters(head, tail)
    ensures var (h, t, n) := (head % TASKBUFSIZ, tail % TASKBUFSIZ, Fill(head, tail));
      (t == h + n || t == h + n - TASKBUFSIZ) && (n == 0 <==> head == tail)
      && (n == TASKBUFSIZ ==> h == t) && tail == (head + n) % WRAP
  {
    var n := Fill(head, tail);
    var q := if tail >= head then 0 else 1;
    assert n == tail - head + q * WRAP;
    var (a, h) := (head / TASKBUFSIZ, head % TASKBUFSIZ);
    var (b, t) := (tail / TASKBUFSIZ, tail % TASKBUFSIZ);
    assert WRAP == 131072 * TASKBUFSIZ;
    assert t - h == n + (a - b - 131072 * q) * TASKBUFSIZ;
  }

  /** The room offered never covers a byte still waiting, and there is none
      exactly when the buffer is full. */
  lemma RoomFits(head: nat, tail: nat)
    requires Counters(head, tail)
    ensures RoomAt(head, tail) + Fill(head, tail) <= TASKBUFSIZ && tail % TASKBUFSIZ + RoomAt(head, tail) <= TASKBUFSIZ
    ensures RoomAt(head, tail) == 0 <==> Fill(head, tail) == TASKBUFSIZ
  {
    Positions(head, tail);
  }

  lemma ReadyFits(head: nat, tail: nat)
    requires Counters(head, tail)
    ensures ReadyAt(head, tail) <= Fill(head, tail) && head % TASKBUFSIZ + ReadyAt(head, tail) <= TASKBUFSIZ
    ensures ReadyAt(head, tail) == 0 <==> Fill(head, tail) == 0
  {
    Positions(head, tail);
  }

  lemma FillGrows(head: nat, tail: nat, n: nat)
    requires Counters(head, tail) && Fill(head, tail) + n <= TASKBUFSIZ
    ensures Fill(head, (tail + n) % WRAP) == Fill(head, tail) + n && Counters(head, (tail + n) % WRAP)
  {
    var q := if tail >= head then 0 else 1;
    assert Fill(head, tail) == tail - head + q * WRAP;
    var p := (tail + n) / WRAP;
    assert (tail + n) % WRAP - head == Fill(head, tail) + n + (0 - q - p) * WRAP;
  }

  lemma FillShrinks(head: nat, tail: nat, n: nat)
    requires Counters(head, tail) && n <= Fill(head, tail)
    ensures Fill((head + n) % WRAP, tail) == Fill(head, tail) - n && Counters((head + n) % WRAP, tail)
  {
    var q := if tail >= head then 0 else 1;
    assert Fill(head, tail) == tail - head + q * WRAP;
    var p := (head + n) / WRAP;
    assert tail - (head + n) % WRAP == Fill(head, tail) - n + (p - q) * WRAP;
  }

  /** The position of the `k`-th waiting byte, past a wrap of the counter. */
  lemma SamePlace(head: nat, n: nat, k: nat)
    ensures ((head + n) % WRAP + k) % TASKBUFSIZ == (head + (n + k)) % TASKBUFSIZ
  {
    var p := (head + n) / WRAP;
    assert (head + n) % WRAP + k == head + (n + k) - p * WRAP;
    assert WRAP == 131072 * TASKBUFSIZ;
    assert (head + (n + k) - p * 131072 * TASKBUFSIZ) % TASKBUFSIZ == (head + (n + k)) % TASKBUFSIZ by {
      ModShift(head + (n + k), p * 131072);
    }
  }

  lemma ModShift(x: int, m: int)
    ensures (x - m * TASKBUFSIZ) % TASKBUFSIZ == x % TASKBUFSIZ
  {
  }

  /** Bytes stored at the tail position come last. */
  lemma PendingGrows(buf: seq<byte>, head: nat, tail: nat, data: seq<byte>)
    requires |buf| == TASKBUFSIZ && Counters(head, tail) && |data| <= RoomAt(head, tail)
    ensures tail % TASKBUFSIZ + |data| <= TASKBUFSIZ
    ensures var at := tail % TASKBUFSIZ;
      Pending(buf[..at] + data + buf[at + |data|..], head, (tail + |data|) % WRAP) == Pending(buf, head, tail) + data
  {
    RoomFits(head, tail);
    Positions(head, tail);
    FillGrows(head, tail, |data|);
    var at := tail % TASKBUFSIZ;
    var n := Fill(head, tail);
    var buf' := buf[..at] + data + buf[at + |data|..];
    hide RoomAt, Fill, Counters;
    forall k: nat | k < n + |data|
      ensures buf'[(head + k) % TASKBUFSIZ] == (Pending(buf, head, tail) + data)[k]
    {
      Place(head, tail, n, |data|, k);
    }
  }

  lemma Place(head: nat, tail: nat, n: nat, m: nat, k: nat)
    requires var (h, t) := (head % TASKBUFSIZ, tail % TASKBUFSIZ); t == h + n || t == h + n - TASKBUFSIZ
    requires n + m <= TASKBUFSIZ && tail % TASKBUFSIZ + m <= TASKBUFSIZ && k < n + m
    ensures var (p, t) := ((head + k) % TASKBUFSIZ, tail % TASKBUFSIZ);
      if k < n then p < t || t + m <= p else p == t + (k - n)
  {
  }

  lemma PlaceInside(head: nat, n: nat, k: nat)
    requires head % TASKBUFSIZ + n <= TASKBUFSIZ && k < n
    ensures (head + k) % TASKBUFSIZ == head % TASKBUFSIZ + k
  {
  }

  /** What is taken from the head position came first. */
  lemma PendingShrinks(buf: seq<byte>, head: nat, tail: nat, n: nat)
    requires |buf| == TASKBUFSIZ && Counters(head, tail) && n <= ReadyAt(head, tail)
    ensures n <= Fill(head, tail) && head % TASKBUFSIZ + n <= TASKBUFSIZ
    ensures buf[head % TASKBUFSIZ..head % TASKBUFSIZ + n] + Pending(buf, (head + n) % WRAP, tail)
        == Pending(buf, head, tail)
  {
    ReadyFits(head, tail);
    FillShrinks(head, tail, n);
    var h := head % TASKBUFSIZ;
    var all := Pending(buf, head, tail);
    var rest := Pending(buf, (head + n) % WRAP, tail);
    hide ReadyAt, Fill, Counters;
    forall k: nat | k < |all| ensures (buf[h..h + n] + rest)[k] == all[k] {
      if k < n {
        PlaceInside(head, n, k);
      } else {
        SamePlace(head, n, k - n);
      }
    }
  }

  // ------------------------------------------------------------ a connection

  /** What `read` and `write` come back with. */
  datatype ReadOutcome = Again | Failed | Got(bytes: seq<byte>)
  datatype WriteOutcome = Blocked | Broken | Took(amt: nat)

  datatype Result = TBufError | TBufEnd | TBufOk | TBufAgain

  class Task {
    const buf: array<byte>
    var head: nat
    var tail: nat
    var totalWritten: nat
    ghost var received: seq<byte>
    ghost var sent: seq<byte>

    /** First in, first out: what came in is what went out and what still waits. */
    ghost predicate Valid()
      reads this, buf
    {
      && buf.Length == TASKBUFSIZ && Counters(head, tail)
      && received == sent + Pending(buf[..], head, tail)
      && totalWritten == |sent|
    }

    constructor ()
      ensures Valid() && fresh(buf) && received == [] && sent == []
    {
      buf := new byte[TASKBUFSIZ];
      head, tail, totalWritten := 0, 0, 0;
      received, sent := [], [];
    }

    /** `read_to_taskbuf`, with what `read` brings into the room offered to it. */
    method ReadToTaskbuf(got: ReadOutcome) returns (r: Result)
      requires Valid() && (got.Got? ==> |got.bytes| <= RoomAt(head, tail))
      modifies this`tail, this`received, buf
      ensures Valid()
      ensures received == old(received) + if got.Got? then got.bytes else []
      ensures r == match got
        case Again => TBufAgain
        case Failed => TBufError
        case Got(bytes) => if bytes == [] then TBufEnd else TBufOk
      ensures old(Fill(head, tail)) == TASKBUFSIZ && got.Got? ==> r == TBufEnd
    {
      RoomFits(head, tail);
      match got {
        case Again => return TBufAgain;
        case Failed => return TBufError;
        case Got(bytes) =>
          if bytes == [] { return TBufEnd; }
          var tailpos := tail % TASKBUFSIZ;
          ghost var was := buf[..];
          PendingGrows(was, head, tail, bytes);
          FillGrows(head, tail, |bytes|);
          hide RoomAt, Fill;
          forall i | 0 <= i < |bytes| {
            buf[tailpos + i] := bytes[i];
          }
          assert buf[..] == was[..tailpos] + bytes + was[tailpos + |bytes|..];
          tail := (tail + |bytes|) % WRAP;
          received := received + bytes;
          return TBufOk;
      }
    }

    /** `write_from_taskbuf`, with how much of what is offered `write` takes. */
    method WriteFromTaskbuf(took: WriteOutcome) returns (r: Result, out: seq<byte>)
      requires Valid() && (took.Took? ==> took.amt <= ReadyAt(head, tail))
      modifies this`head, this`totalWritten, this`sent
      ensures Valid() && received == old(received) && sent == old(sent) + out
      ensures old(head == tail) <==> old(Fill(head, tail)) == 0
      ensures |out| == if took.Took? && old(head != tail) then took.amt else 0
      ensures r == if old(head == tail) then TBufEnd else match took
        case Blocked => TBufAgain
        case Broken => TBufError
        case Took(amt) => if amt == 0 then TBufEnd else TBufOk
    {
      out := [];
      Positions(head, tail);
      if head == tail { return TBufEnd, []; }
      match took {
        case Blocked => return TBufAgain, [];
        case Broken => return TBufError, [];
        case Took(amt) =>
          if amt == 0 { return TBufEnd, []; }
          var headpos := head % TASKBUFSIZ;
          PendingShrinks(buf[..], head, tail, amt);
          FillShrinks(head, tail, amt);
          hide ReadyAt, Fill;
          out := buf[headpos..headpos + amt];
          head := (head + amt) % WRAP;
          totalWritten := totalWritten + amt;
          sent := sent + out;
          return TBufOk, out;
      }
    }
  }
}
