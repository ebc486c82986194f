/** Files and the retry loops of utils.c over partial and interrupted transfers. */
module Transfer {
  import opened Bytes

  /** What the kernel does with one read or write call; an empty schedule transfers everything asked. */
  datatype Event = Interrupted | WouldBlock | Partial(n: nat) | Fail

  datatype Errno = EINTR | EAGAIN | EIO

  /** No permanent error and no zero-length transfer: every call moves data or asks to be retried. */
  predicate Benign(schedule: seq<Event>) {
    forall e :: e in schedule ==> e != Fail && e != Partial(0)
  }

  lemma BenignTail(schedule: seq<Event>)
    requires Benign(schedule) && schedule != []
    ensures Benign(schedule[1..]) && schedule[0] != Fail && schedule[0] != Partial(0)
  {
    assert schedule[0] in schedule && forall e :: e in schedule[1..] ==> e in schedule;
  }

  /** How a whole transfer loop ends: with a permanent error or not, after how many bytes, before which events. */
  datatype Transferred = Transferred(failed: bool, moved: nat, rest: seq<Event>)

  function Plus(n: nat, t: Transferred): Transferred {
    t.(moved := n + t.moved)
  }

  // ---------------------------------------------------------------- reading

  /** Asking for count bytes, again and again, of a file that has avail left. */
  function Reading(schedule: seq<Event>, count: nat, avail: nat): (t: Transferred)
    ensures t.moved <= count && t.moved <= avail && |t.rest| <= |schedule|
    ensures t.failed ==> t.moved < count && |t.rest| < |schedule|
  {
    if count == 0 then Transferred(false, 0, schedule)
    else if schedule == [] then Transferred(false, Min(count, avail), [])
    else
      match schedule[0]
      case Fail => Transferred(true, 0, schedule[1..])
      case Partial(n) =>
        var k := Min(Min(n, count), avail);
        if k == 0 then Transferred(false, 0, schedule[1..]) else Plus(k, Reading(schedule[1..], count - k, avail - k))
      case _ => Reading(schedule[1..], count, avail)
  }

  /** After n bytes the loop still has to read count from a file with avail left, and will end as `all`. */
  ghost predicate Goes(all: Transferred, n: nat, schedule: seq<Event>, count: nat, avail: nat) {
    all == Plus(n, Reading(schedule, count, avail))
  }

  /** One call of the loop: what it does to the schedule, and how the loop goes on or ends. */
  lemma ReadingTurn(all: Transferred, n: nat, schedule: seq<Event>, count: nat, avail: nat)
    requires count > 0 && Goes(all, n, schedule, count, avail)
    ensures var k, rest := ReadNow(schedule, count, avail), Tail(schedule);
            if schedule != [] && !schedule[0].Partial? then
              if schedule[0] == Fail then all == Transferred(true, n, rest) else Goes(all, n, rest, count, avail)
            else if k == 0 then all == Transferred(false, n, rest)
            else Goes(all, n + k, rest, count - k, avail - k)
  {
  }

  function Tail(schedule: seq<Event>): seq<Event> {
    if schedule == [] then [] else schedule[1..]
  }

  /** What a single call moves. */
  function ReadNow(schedule: seq<Event>, count: nat, avail: nat): (k: nat)
    ensures k <= count && k <= avail
  {
    if schedule == [] then Min(count, avail)
    else if schedule[0].Partial? then Min(Min(schedule[0].n, count), avail)
    else 0
  }

  lemma ReadingDone(all: Transferred, n: nat, schedule: seq<Event>, avail: nat)
    requires Goes(all, n, schedule, 0, avail)
    ensures all == Transferred(false, n, schedule)
  {
  }

  lemma ReadingStarts(schedule: seq<Event>, count: nat, avail: nat)
    ensures Goes(Reading(schedule, count, avail), 0, schedule, count, avail)
  {
  }

  /** Without permanent errors and zero-length transfers, everything there is. */
  lemma {:induction false} ReadingBenign(schedule: seq<Event>, count: nat, avail: nat)
    requires Benign(schedule)
    ensures var t := Reading(schedule, count, avail); !t.failed && t.moved == Min(count, avail) && Benign(t.rest)
  {
    if count > 0 && schedule != [] {
      BenignTail(schedule);
      hide Benign;
      if schedule[0].Partial? {
        var k := Min(Min(schedule[0].n, count), avail);
        if k > 0 {
          ReadingBenign(schedule[1..], count - k, avail - k);
        }
      } else {
        ReadingBenign(schedule[1..], count, avail);
      }
    }
  }

  /** What the transfers of the first i events offer to move. */
  function Offered(schedule: seq<Event>, i: nat): nat
    requires i <= |schedule|
  {
    if i == 0 then 0
    else (if schedule[0].Partial? then schedule[0].n else 0) + Offered(schedule[1..], i - 1)
  }

  /** Event i is met before count bytes are read and before a read finds the end of the file or moves nothing. */
  predicate Reached(schedule: seq<Event>, count: nat, avail: nat, i: nat) {
    && i < |schedule| && Min(Offered(schedule, i), avail) < count
    && forall j :: 0 <= j < i ==>
         schedule[j] != Fail && (schedule[j].Partial? ==> schedule[j].n > 0 && Offered(schedule, j) < avail)
  }

  /** A permanent error is met before the transfer is over. */
  ghost predicate FailReached(schedule: seq<Event>, count: nat, avail: nat) {
    exists i: nat :: Reached(schedule, count, avail, i) && schedule[i] == Fail
  }

  /** A transfer fails for good if and only if a permanent error is met before it is over. */
  lemma {:induction false} FailsIffReached(schedule: seq<Event>, count: nat, avail: nat)
    ensures Reading(schedule, count, avail).failed <==> FailReached(schedule, count, avail)
  {
    hide Reached, FailReached;
    FirstEvent(schedule, count, avail);
    if count > 0 && schedule != [] && schedule[0] != Fail {
      var e := schedule[0];
      var k := if e.Partial? then Min(Min(e.n, count), avail) else 0;
      if !e.Partial? || k > 0 {
        FailsIffReached(schedule[1..], count - k, avail - k);
        PastFirstEvent(schedule, count, avail);
      }
    }
  }

  /** When the first event decides. */
  lemma FirstEvent(schedule: seq<Event>, count: nat, avail: nat)
    ensures count == 0 || schedule == [] ==> !FailReached(schedule, count, avail)
    ensures count > 0 && schedule != [] && schedule[0] == Fail ==> FailReached(schedule, count, avail)
    ensures schedule != [] && schedule[0].Partial? && (schedule[0].n == 0 || avail == 0) ==>
            !FailReached(schedule, count, avail)
  {
    FirstReached(schedule, count, avail);
    hide Reached;
    if schedule != [] && schedule[0].Partial? && (schedule[0].n == 0 || avail == 0) {
      forall i: nat | i > 0 ensures !Reached(schedule, count, avail, i) {
        EndsAtOnce(schedule, count, avail, i);
      }
    }
  }

  /** When it does not, the rest does. */
  lemma PastFirstEvent(schedule: seq<Event>, count: nat, avail: nat)
    requires schedule != [] && schedule[0] != Fail && count > 0
    requires schedule[0].Partial? ==> schedule[0].n > 0 && avail > 0
    ensures var k := if schedule[0].Partial? then Min(Min(schedule[0].n, count), avail) else 0;
            FailReached(schedule, count, avail) <==> FailReached(schedule[1..], count - k, avail - k)
  {
    var tail := schedule[1..];
    var k := if schedule[0].Partial? then Min(Min(schedule[0].n, count), avail) else 0;
    FirstReached(tail, count - k, avail - k);
    FirstReached(schedule, count, avail);
    hide Reached;
    if i: nat :| Reached(tail, count - k, avail - k, i) && tail[i] == Fail {
      ReachedBefore(schedule, count, avail, i);
      assert schedule[i + 1] == Fail;
    }
    if i: nat :| Reached(schedule, count, avail, i) && schedule[i] == Fail {
      ReachedBefore(schedule, count, avail, i - 1);
      assert tail[i - 1] == Fail;
    }
  }

  lemma FirstReached(schedule: seq<Event>, count: nat, avail: nat)
    ensures Reached(schedule, count, avail, 0) <==> schedule != [] && count > 0
    ensures forall i: nat :: Reached(schedule, count, avail, i) ==>
            i < |schedule| && count > 0 && (i > 0 ==> schedule[0] != Fail)
  {
  }

  lemma EndsAtOnce(schedule: seq<Event>, count: nat, avail: nat, i: nat)
    requires schedule != [] && schedule[0].Partial? && (schedule[0].n == 0 || avail == 0) && i > 0
    ensures !Reached(schedule, count, avail, i)
  {
    assert Offered(schedule, 0) == 0;
  }

  /** Event i of the tail is reached if and only if event i + 1 of the whole is, past a first event that goes on. */
  lemma ReachedBefore(schedule: seq<Event>, count: nat, avail: nat, i: nat)
    requires schedule != [] && schedule[0] != Fail && count > 0
    requires schedule[0].Partial? ==> schedule[0].n > 0 && avail > 0
    ensures var k := if schedule[0].Partial? then Min(Min(schedule[0].n, count), avail) else 0;
            Reached(schedule, count, avail, i + 1) <==> Reached(schedule[1..], count - k, avail - k, i)
  {
    var tail := schedule[1..];
    var n := if schedule[0].Partial? then schedule[0].n else 0;
    var k := Min(Min(n, count), avail);
    assert forall j :: 0 <= j < |tail| ==>
        tail[j] == schedule[j + 1] && Offered(schedule, j + 1) == n + Offered(tail, j);
    if Reached(schedule, count, avail, i + 1) {
      forall j | 0 <= j < i ensures tail[j] != Fail {
        assert schedule[j + 1] != Fail;
      }
      forall j | 0 <= j < i && tail[j].Partial?
        ensures tail[j].n > 0 && n < avail && Offered(schedule, j + 1) < avail
      {
        assert schedule[j + 1].Partial?;
      }
    }
    if Reached(tail, count - k, avail - k, i) {
      forall j | 0 <= j < i + 1
        ensures schedule[j] != Fail && (schedule[j].Partial? ==> schedule[j].n > 0 && Offered(schedule, j) < avail)
      {
        if j > 0 {
          assert schedule[j] == tail[j - 1];
        }
      }
    }
  }

  // ---------------------------------------------------------------- writing

  /** Offering count bytes until all are taken; one call is made even for none. */
  function Writing(schedule: seq<Event>, count: nat): (t: Transferred)
    ensures t.moved <= count && |t.rest| <= |schedule|
    ensures t.failed ==> |t.rest| < |schedule|
  {
    if schedule == [] then Transferred(false, count, [])
    else
      var rest := schedule[1..];
      match schedule[0]
      case Fail => Transferred(true, 0, rest)
      case Partial(n) =>
        var k := Min(n, count);
        if k == 0 || k == count then Transferred(false, k, rest) else Plus(k, Writing(rest, count - k))
      case _ => if count == 0 then Transferred(false, 0, rest) else Writing(rest, count)
  }

  /** After n bytes the loop offers count more, and will end as `all`. */
  ghost predicate Puts(all: Transferred, n: nat, schedule: seq<Event>, count: nat) {
    all == Plus(n, Writing(schedule, count))
  }

  lemma WritingStarts(schedule: seq<Event>, count: nat)
    ensures Puts(Writing(schedule, count), 0, schedule, count)
  {
  }

  /** What a single call takes. */
  function WriteNow(schedule: seq<Event>, count: nat): (k: nat)
    ensures k <= count
  {
    if schedule == [] then count else if schedule[0].Partial? then Min(schedule[0].n, count) else 0
  }

  lemma WritingTurn(all: Transferred, n: nat, schedule: seq<Event>, count: nat)
    requires Puts(all, n, schedule, count)
    ensures var k, rest := WriteNow(schedule, count), Tail(schedule);
            if schedule != [] && !schedule[0].Partial? then
              if schedule[0] == Fail then all == Transferred(true, n, rest)
              else if count == 0 then all == Transferred(false, n, rest)
              else Puts(all, n, rest, count)
            else if k == 0 || k == count then all == Transferred(false, n + k, rest)
            else Puts(all, n + k, rest, count - k)
  {
  }

  /** Writing something ends like reading as much from a file that has it. */
  lemma {:induction false} WritingIsReading(schedule: seq<Event>, count: nat)
    requires count > 0
    ensures Writing(schedule, count) == Reading(schedule, count, count)
  {
    if schedule != [] {
      if schedule[0].Partial? {
        var k := Min(schedule[0].n, count);
        if 0 < k < count {
          WritingIsReading(schedule[1..], count - k);
        }
      } else if schedule[0] != Fail {
        WritingIsReading(schedule[1..], count);
      }
    }
  }

  lemma WritingBenign(schedule: seq<Event>, count: nat)
    requires Benign(schedule)
    ensures var t := Writing(schedule, count); !t.failed && t.moved == count && Benign(t.rest)
  {
    if count > 0 {
      WritingIsReading(schedule, count);
      ReadingBenign(schedule, count, count);
    } else if schedule != [] {
      BenignTail(schedule);
    }
  }

  // ---------------------------------------------------------------- files

  class File {
    var contents: seq<Byte>
    var pos: nat
    var schedule: seq<Event>

    ghost predicate Valid()
      reads this
    {
      pos <= |contents|
    }

    lemma InRange()
      ensures Valid() <==> pos <= |contents|
    {
    }

    constructor (contents: seq<Byte>, schedule: seq<Event>)
      ensures Valid() && this.contents == contents && pos == 0 && this.schedule == schedule
    {
      this.contents, this.pos, this.schedule := contents, 0, schedule;
    }

    /** read(2): up to count bytes from the current position, or -1 with an errno. */
    method Read(count: nat) returns (rc: int, errno: Errno, data: seq<Byte>)
      requires Valid()
      modifies this`pos, this`schedule
      ensures Valid()
      ensures -1 <= rc && |data| == (if rc < 0 then 0 else rc) <= count
      ensures old(pos) <= pos <= |contents| && data == contents[old(pos)..pos]
      ensures schedule == Tail(old(schedule))
      ensures rc == -1 <==> old(schedule) != [] && !old(schedule)[0].Partial?
      ensures rc == -1 ==> errno == ErrnoOf(old(schedule)[0])
      ensures rc >= 0 ==> rc == ReadNow(old(schedule), count, |contents| - old(pos))
    {
      var limit := count;
      data, errno := [], EIO;
      if schedule != [] {
        var e := schedule[0];
        schedule := schedule[1..];
        if !e.Partial? {
          return -1, ErrnoOf(e), [];
        }
        limit := Min(e.n, count);
      }
      var n := Min(limit, |contents| - pos);
      data := contents[pos..pos + n];
      pos := pos + n;
      rc := n;
    }

    /** write(2): appends a prefix of data, or answers -1 with an errno. */
    method Write(data: seq<Byte>) returns (rc: int, errno: Errno)
      modifies this`contents, this`schedule
      ensures -1 <= rc <= |data|
      ensures contents == old(contents) + (if rc < 0 then [] else data[..rc])
      ensures schedule == Tail(old(schedule))
      ensures rc == -1 <==> old(schedule) != [] && !old(schedule)[0].Partial?
      ensures rc == -1 ==> errno == ErrnoOf(old(schedule)[0])
      ensures rc >= 0 ==> rc == WriteNow(old(schedule), |data|)
    {
      var n := |data|;
      errno := EIO;
      if schedule != [] {
        var e := schedule[0];
        schedule := schedule[1..];
        if !e.Partial? {
          return -1, ErrnoOf(e);
        }
        n := Min(e.n, |data|);
      }
      contents := contents + data[..n];
      rc := n;
    }
  }

  function ErrnoOf(e: Event): Errno {
    match e
    case Interrupted => EINTR
    case WouldBlock => EAGAIN
    case _ => EIO
  }

  /** writeAll: appends the prefix of the buffer that the schedule lets through; -1 after a permanent error. */
  method WriteAll(f: File, buf: seq<Byte>) returns (rc: int)
    modifies f`contents, f`schedule
    ensures var t := Writing(old(f.schedule), |buf|);
            && rc == (if t.failed then -1 else t.moved)
            && f.contents == old(f.contents) + buf[..t.moved] && f.schedule == t.rest
  {
    hide *;
    ghost var before, all := f.contents, Writing(f.schedule, |buf|);
    var numWritten := 0;
    WritingStarts(f.schedule, |buf|);
    while true
      invariant numWritten < |buf| || numWritten == 0
      invariant numWritten <= |buf| && f.contents == before + buf[..numWritten]
      invariant Puts(all, numWritten, f.schedule, |buf| - numWritten)
      decreases |f.schedule|, |buf| - numWritten
    {
      WritingTurn(all, numWritten, f.schedule, |buf| - numWritten);
      RetriedErrors(f.schedule);
      var errno;
      rc, errno := f.Write(buf[numWritten..]);
      JoinParts(before, buf, numWritten, if rc < 0 then 0 else rc);
      if rc == -1 {
        if errno != EINTR && errno != EAGAIN {
          return;
        }
      } else if rc == 0 {
        break;
      } else {
        numWritten := numWritten + rc;
      }
      if numWritten >= |buf| {
        break;
      }
    }
    rc := numWritten;
  }

  lemma JoinParts(before: seq<Byte>, buf: seq<Byte>, n: nat, k: nat)
    requires n + k <= |buf|
    ensures before + buf[..n] + buf[n..][..k] == before + buf[..n + k]
    ensures before + buf[..n] + [] == before + buf[..n]
  {
  }

  /** readAll: the bytes it deposits in the caller's buffer are returned as `data`. */
  method ReadAll(f: File, count: nat) returns (rc: int, data: seq<Byte>)
    requires f.Valid()
    modifies f`pos, f`schedule
    ensures f.Valid() && f.pos == old(f.pos) + |data| && data == f.contents[old(f.pos)..f.pos]
    ensures var t := Reading(old(f.schedule), count, |f.contents| - old(f.pos));
            && rc == (if t.failed then -1 else t.moved) && |data| == t.moved && f.schedule == t.rest
  {
    hide *;
    f.InRange();
    ghost var start, img, all := f.pos, f.contents, Reading(f.schedule, count, |f.contents| - f.pos);
    ReadingStarts(f.schedule, count, |f.contents| - f.pos);
    data := [];
    EmptySlice(img, start);
    rc := 0;
    var ended := false;
    while !ended && |data| < count
      invariant |data| <= count && f.pos == start + |data| <= |img| && Slice(data, img, start)
      invariant if ended then all == Transferred(rc == -1, |data|, f.schedule)
                else Goes(all, |data|, f.schedule, count - |data|, |img| - f.pos)
      decreases !ended, |f.schedule|, count - |data|
    {
      var more;
      rc, more, ended := ReadMore(f, count - |data|, |data|, all);
      JoinSlices(data, more, img, start);
      data := data + more;
    }
    f.InRange();
    SliceIs(data, img, start);
    if !ended {
      ReadingDone(all, |data|, f.schedule, |img| - f.pos);
    }
    if !ended || rc != -1 {
      rc := |data|;
    }
  }

  /** One turn of readAll's loop, after n bytes: it ends at a permanent error or when nothing is read. */
  method ReadMore(f: File, count: nat, ghost n: nat, ghost all: Transferred)
      returns (rc: int, more: seq<Byte>, ended: bool)
    requires f.pos <= |f.contents| && count > 0 && Goes(all, n, f.schedule, count, |f.contents| - f.pos)
    modifies f`pos, f`schedule
    ensures f.pos == old(f.pos) + |more| <= |f.contents| && more == f.contents[old(f.pos)..f.pos] && |more| <= count
    ensures ended ==> more == [] && all == Transferred(rc == -1, n, f.schedule)
    ensures !ended ==> Goes(all, n + |more|, f.schedule, count - |more|, |f.contents| - f.pos)
    ensures !ended ==> |f.schedule| < |old(f.schedule)| || (|f.schedule| == |old(f.schedule)| && more != [])
  {
    hide *;
    f.InRange();
    ReadingTurn(all, n, f.schedule, count, |f.contents| - f.pos);
    RetriedErrors(f.schedule);
    var errno;
    rc, errno, more := f.Read(count);
    f.InRange();
    ended := if rc == -1 then errno != EINTR && errno != EAGAIN else rc == 0;
  }

  lemma RetriedErrors(schedule: seq<Event>)
    ensures schedule == [] ==> Tail(schedule) == []
    ensures schedule != [] ==>
              && |Tail(schedule)| < |schedule|
              && (ErrnoOf(schedule[0]) == EINTR || ErrnoOf(schedule[0]) == EAGAIN <==>
                  schedule[0].Interrupted? || schedule[0].WouldBlock?)
  {
  }

  /** data is what stands in c from position i on. */
  ghost predicate Slice(data: seq<Byte>, c: seq<Byte>, i: nat) {
    i + |data| <= |c| && data == c[i..i + |data|]
  }

  lemma EmptySlice(c: seq<Byte>, i: nat)
    requires i <= |c|
    ensures Slice([], c, i)
  {
  }

  lemma SliceIs(data: seq<Byte>, c: seq<Byte>, i: nat)
    requires Slice(data, c, i)
    ensures i + |data| <= |c| && data == c[i..i + |data|]
  {
  }

  lemma JoinSlices(data: seq<Byte>, more: seq<Byte>, c: seq<Byte>, i: nat)
    requires Slice(data, c, i)
    ensures i + |data| + |more| <= |c| && more == c[i + |data|..i + |data| + |more|] ==> Slice(data + more, c, i)
  {
  }
}
