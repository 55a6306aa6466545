/**
  The worker pool's ring buffer (src/bgwpool.c): whole messages in a byte array, the body of one
  that does not fit at the end moved to the beginning while its size word stays behind.
  It is a FIFO exactly as long as no accepted push makes the tail land on the head.
 */
module WorkerQueue {

  const INT_SIZE: nat := 4

  /** One byte of memory: plain, or the k-th byte of a stored int. */
  datatype Byte = Plain(value: bv8) | PartOfInt(n: nat, k: nat)

  /** A job: its place in the transaction list and its bytes. */
  datatype Msg = Msg(pos: nat, work: seq<Byte>)

  datatype Option<T> = None | Some(value: T)

  /** MAXALIGN: the least multiple of 8 that is at least n. */
  function MaxAlign(n: nat): (r: nat)
    ensures n <= r < n + 8 && r % 8 == 0
  {
    if n == 0 then 0 else if n <= 8 then 8 else 8 + MaxAlign(n - 8)
  }

  lemma {:induction false} MaxAligned(n: nat)
    ensures MaxAlign(n) % 4 == 0
  {
    if n > 8 {
      MaxAligned(n - 8);
    }
  }

  lemma LenAligned(size: nat)
    ensures MsgLen(size) % 4 == 0
  {
    MaxAligned(size);
    TwoWords(MaxAlign(size));
  }

  lemma TwoWords(n: nat)
    requires n % 4 == 0
    ensures (8 + n) % 4 == 0
  {
  }

  lemma EndAligned(head: nat, len: nat, size: nat)
    requires head % 4 == 0 && len % 4 == 0 && size % 4 == 0 && head + len <= size
    ensures head + len == size || head + len + 4 <= size
  {
  }

  /** MSGLEN */
  function MsgLen(size: nat): nat {
    2 * INT_SIZE + MaxAlign(size)
  }

  function Len(m: Msg): nat {
    MsgLen(|m.work|)
  }

  // ----- memory -----

  function IntBytes(n: nat): (b: seq<Byte>)
    ensures |b| == INT_SIZE
  {
    [PartOfInt(n, 0), PartOfInt(n, 1), PartOfInt(n, 2), PartOfInt(n, 3)]
  }

  function IntAt(mem: seq<Byte>, at: nat): nat
    requires at < |mem|
  {
    if mem[at].PartOfInt? then mem[at].n else 0
  }

  lemma IntRoundTrip(mem: seq<Byte>, at: nat, n: nat)
    requires at + INT_SIZE <= |mem| && mem[at..at + INT_SIZE] == IntBytes(n)
    ensures IntAt(mem, at) == n
  {
    assert mem[at..at + INT_SIZE][0] == mem[at];
  }

  /** memcpy of bytes to position at. */
  function Write(mem: seq<Byte>, at: nat, bytes: seq<Byte>): (r: seq<Byte>)
    requires at + |bytes| <= |mem|
    ensures |r| == |mem|
  {
    mem[..at] + bytes + mem[at + |bytes|..]
  }

  lemma Written(mem: seq<Byte>, at: nat, bytes: seq<Byte>, i: nat, j: nat)
    requires at + |bytes| <= |mem| && i <= j <= |mem|
    ensures Write(mem, at, bytes)[at..at + |bytes|] == bytes
    ensures j <= at || at + |bytes| <= i ==> Write(mem, at, bytes)[i..j] == mem[i..j]
  {
  }

  /** Position words and body of a message, from `at` on. */
  predicate BodyAt(mem: seq<Byte>, at: nat, m: Msg)
  {
    && at + Len(m) - INT_SIZE <= |mem|
    && mem[at..at + INT_SIZE] == IntBytes(m.pos)
    && mem[at + INT_SIZE..at + INT_SIZE + |m.work|] == m.work
  }

  predicate SizeAt(mem: seq<Byte>, at: nat, m: Msg)
  {
    at + INT_SIZE <= |mem| && mem[at..at + INT_SIZE] == IntBytes(|m.work|)
  }

  function WriteBody(mem: seq<Byte>, at: nat, m: Msg): (r: seq<Byte>)
    requires at + Len(m) - INT_SIZE <= |mem|
    ensures |r| == |mem|
  {
    Write(Write(mem, at, IntBytes(m.pos)), at + INT_SIZE, m.work)
  }

  lemma BodyWritten(mem: seq<Byte>, at: nat, m: Msg, i: nat, j: nat)
    requires at + Len(m) - INT_SIZE <= |mem| && i <= j <= |mem|
    ensures BodyAt(WriteBody(mem, at, m), at, m)
    ensures j <= at || at + Len(m) - INT_SIZE <= i ==> WriteBody(mem, at, m)[i..j] == mem[i..j]
  {
    var one := Write(mem, at, IntBytes(m.pos));
    Written(mem, at, IntBytes(m.pos), i, j);
    Written(one, at + INT_SIZE, m.work, i, j);
    Written(one, at + INT_SIZE, m.work, at, at + INT_SIZE);
  }

  // ----- the queue as a value -----

  datatype Queue = Queue(mem: seq<Byte>, head: nat, tail: nat)

  /** A size word fits at the head and at the tail. */
  predicate Shape(q: Queue) {
    q.head + INT_SIZE <= |q.mem| && q.tail + INT_SIZE <= |q.mem|
  }

  /** Everything is int-aligned. */
  predicate Aligned(q: Queue) {
    q.head % 4 == 0 && q.tail % 4 == 0 && |q.mem| % 4 == 0
  }

  /** The condition under which BgwPoolExecute does not wait. */
  predicate HasRoom(q: Queue, len: nat) {
    || (q.head <= q.tail && (|q.mem| - q.tail >= len || q.head >= len - INT_SIZE))
    || (q.head > q.tail && q.head - q.tail >= len)
  }

  function Wrap(pos: nat, size: nat): nat {
    if pos == size then 0 else pos
  }

  /** Where the tail goes. */
  function NewTail(q: Queue, len: nat): nat
    requires Shape(q) && len >= INT_SIZE
  {
    Wrap(if |q.mem| - q.tail >= len then q.tail + len else len - INT_SIZE, |q.mem|)
  }

  /** An accepted push that makes a full queue look empty. */
  predicate Lands(q: Queue, len: nat)
    requires Shape(q) && len >= INT_SIZE
  {
    HasRoom(q, len) && NewTail(q, len) == q.head
  }

  function Push(q: Queue, m: Msg): Option<Queue>
    requires Shape(q) && Len(m) <= |q.mem|
  {
    if HasRoom(q, Len(m)) then
      var sized := Write(q.mem, q.tail, IntBytes(|m.work|));
      var mem := WriteBody(sized, if |q.mem| - q.tail >= Len(m) then q.tail + INT_SIZE else 0, m);
      Some(Queue(mem, q.head, NewTail(q, Len(m))))
    else None
  }

  /** What a worker takes: None when the queue looks empty. */
  function Pop(q: Queue): Option<(Msg, Queue)>
    requires Shape(q) && Readable(q)
  {
    if q.head == q.tail then None
    else
      var size := IntAt(q.mem, q.head);
      var split := q.head + MsgLen(size) > |q.mem|;
      var at := if split then 0 else q.head + INT_SIZE;
      var m := Msg(IntAt(q.mem, at), q.mem[at + INT_SIZE..at + INT_SIZE + size]);
      var head := Wrap(if split then MsgLen(size) - INT_SIZE else q.head + MsgLen(size), |q.mem|);
      Some((m, Advance(q, head)))
  }

  /** The head moves on; an empty queue is reset so that it accepts messages bigger than half of the buffer. */
  function Advance(q: Queue, head: nat): Queue {
    if head == q.tail then Queue(q.mem, 0, 0) else q.(head := head)
  }

  /** The size word at the head is one that a push of a message that fits wrote. */
  predicate Readable(q: Queue)
    requires Shape(q)
  {
    q.head != q.tail ==> MsgLen(IntAt(q.mem, q.head)) <= |q.mem|
  }

  // ----- what the queue holds -----

  /** msgs lie one after the other from pos to end. */
  ghost predicate Linear(mem: seq<Byte>, pos: nat, end: nat, msgs: seq<Msg>)
    decreases |msgs|
  {
    if msgs == [] then pos == end
    else
      && pos + Len(msgs[0]) <= end <= |mem|
      && SizeAt(mem, pos, msgs[0]) && BodyAt(mem, pos + INT_SIZE, msgs[0])
      && Linear(mem, pos + Len(msgs[0]), end, msgs[1..])
  }

  /** After the last message at the end of the buffer, at `turn`: nothing, or the size word of the next one. */
  ghost predicate Turned(mem: seq<Byte>, turn: nat, tail: nat, msgs: seq<Msg>) {
    if turn == |mem| then Linear(mem, 0, tail, msgs)
    else
      && msgs != [] && turn < |mem| < turn + Len(msgs[0]) && Len(msgs[0]) <= |mem|
      && SizeAt(mem, turn, msgs[0]) && BodyAt(mem, 0, msgs[0])
      && Linear(mem, Len(msgs[0]) - INT_SIZE, tail, msgs[1..])
  }

  ghost predicate SplitAt(q: Queue, msgs: seq<Msg>, turn: nat, k: nat) {
    k <= |msgs| && Linear(q.mem, q.head, turn, msgs[..k]) && Turned(q.mem, turn, q.tail, msgs[k..])
  }

  ghost predicate Represents(q: Queue, msgs: seq<Msg>) {
    match q
    case Queue(mem, head, tail) =>
      && Shape(q) && (head == tail ==> head == 0)
      && if head <= tail then Linear(mem, head, tail, msgs)
         else exists turn: nat, k: nat :: SplitAt(q, msgs, turn, k)
  }

  // ----- writing keeps what is stored -----

  lemma {:induction false} LinearBounds(mem: seq<Byte>, pos: nat, end: nat, msgs: seq<Msg>)
    requires Linear(mem, pos, end, msgs)
    ensures pos <= end && (msgs != [] ==> pos < end <= |mem|)
    decreases |msgs|
  {
    if msgs != [] {
      LinearBounds(mem, pos + Len(msgs[0]), end, msgs[1..]);
    }
  }

  lemma SubSlice(a: seq<Byte>, b: seq<Byte>, i: nat, j: nat, k: nat, l: nat)
    requires i <= k <= l <= j <= |a| && |a| == |b| && a[i..j] == b[i..j]
    ensures a[k..l] == b[k..l]
  {
    forall x | 0 <= x < l - k
      ensures a[k..l][x] == b[k..l][x]
    {
      assert a[i..j][k - i + x] == b[i..j][k - i + x];
    }
  }

  lemma {:induction false} LinearFrame(mem: seq<Byte>, mem': seq<Byte>, pos: nat, end: nat, msgs: seq<Msg>)
    requires Linear(mem, pos, end, msgs) && |mem'| == |mem| && pos <= end <= |mem| && mem[pos..end] == mem'[pos..end]
    ensures Linear(mem', pos, end, msgs)
    decreases |msgs|
  {
    if msgs != [] {
      var m := msgs[0];
      SubSlice(mem, mem', pos, end, pos, pos + INT_SIZE);
      SubSlice(mem, mem', pos, end, pos + INT_SIZE, pos + 2 * INT_SIZE);
      SubSlice(mem, mem', pos, end, pos + 2 * INT_SIZE, pos + 2 * INT_SIZE + |m.work|);
      SubSlice(mem, mem', pos, end, pos + Len(m), end);
      LinearFrame(mem, mem', pos + Len(m), end, msgs[1..]);
    }
  }

  lemma {:induction false} LinearAppend(mem: seq<Byte>, pos: nat, end: nat, msgs: seq<Msg>, m: Msg)
    requires Linear(mem, pos, end, msgs) && end + Len(m) <= |mem| && SizeAt(mem, end, m) && BodyAt(mem, end + INT_SIZE, m)
    ensures Linear(mem, pos, end + Len(m), msgs + [m])
    decreases |msgs|
  {
    if msgs == [] {
      assert [m][1..] == [];
    } else {
      LinearAppend(mem, pos + Len(msgs[0]), end, msgs[1..], m);
      assert (msgs + [m])[1..] == msgs[1..] + [m];
    }
  }

  /** m was written whole at tail, and nothing else changed. */
  ghost predicate WroteWhole(mem: seq<Byte>, mem': seq<Byte>, tail: nat, m: Msg) {
    && |mem'| == |mem| && tail + Len(m) <= |mem| && SizeAt(mem', tail, m) && BodyAt(mem', tail + INT_SIZE, m)
    && mem'[0..tail] == mem[0..tail] && mem'[tail + Len(m)..|mem|] == mem[tail + Len(m)..|mem|]
  }

  /** The size word of m was written at tail, the rest at the beginning, and nothing in between changed. */
  ghost predicate WroteSplit(mem: seq<Byte>, mem': seq<Byte>, tail: nat, m: Msg) {
    && |mem'| == |mem| && Len(m) - INT_SIZE <= tail < |mem| < tail + Len(m) && SizeAt(mem', tail, m) && BodyAt(mem', 0, m)
    && mem'[Len(m) - INT_SIZE..tail] == mem[Len(m) - INT_SIZE..tail]
  }

  lemma WritesWhole(mem: seq<Byte>, tail: nat, m: Msg)
    requires tail + Len(m) <= |mem|
    ensures WroteWhole(mem, WriteBody(Write(mem, tail, IntBytes(|m.work|)), tail + INT_SIZE, m), tail, m)
  {
    var size, end := IntBytes(|m.work|), tail + Len(m);
    var sized := Write(mem, tail, size);
    Written(mem, tail, size, 0, tail);
    Written(mem, tail, size, end, |mem|);
    BodyWritten(sized, tail + INT_SIZE, m, 0, tail);
    BodyWritten(sized, tail + INT_SIZE, m, tail, tail + INT_SIZE);
    BodyWritten(sized, tail + INT_SIZE, m, end, |mem|);
  }

  lemma WritesSplit(mem: seq<Byte>, tail: nat, m: Msg)
    requires tail + INT_SIZE <= |mem| && Len(m) - INT_SIZE <= tail && |mem| < tail + Len(m)
    ensures WroteSplit(mem, WriteBody(Write(mem, tail, IntBytes(|m.work|)), 0, m), tail, m)
  {
    var size := IntBytes(|m.work|);
    var sized := Write(mem, tail, size);
    Written(mem, tail, size, Len(m) - INT_SIZE, tail);
    BodyWritten(sized, 0, m, Len(m) - INT_SIZE, tail);
    BodyWritten(sized, 0, m, tail, tail + INT_SIZE);
  }

  lemma PushWrites(q: Queue, m: Msg)
    requires Shape(q) && Len(m) <= |q.mem| && HasRoom(q, Len(m))
    ensures var mem' := Push(q, m).value.mem;
            if |q.mem| - q.tail >= Len(m) then WroteWhole(q.mem, mem', q.tail, m)
            else q.head <= q.tail && Len(m) - INT_SIZE <= q.head && WroteSplit(q.mem, mem', q.tail, m)
  {
    if |q.mem| - q.tail >= Len(m) {
      WritesWhole(q.mem, q.tail, m);
    } else {
      WritesSplit(q.mem, q.tail, m);
    }
  }

  lemma TailAligned(tail: nat, len: nat, size: nat)
    requires tail % 4 == 0 && len % 4 == 0 && size % 4 == 0 && 4 <= len <= size && tail < size
    ensures var t := Wrap(if size - tail >= len then tail + len else len - 4, size); t % 4 == 0 && t + 4 <= size
  {
  }

  lemma PushShape(q: Queue, m: Msg)
    requires Shape(q) && Aligned(q) && Len(m) <= |q.mem| && HasRoom(q, Len(m))
    ensures Shape(Push(q, m).value) && Aligned(Push(q, m).value)
  {
    LenAligned(|m.work|);
    TailAligned(q.tail, Len(m), |q.mem|);
  }

  // ----- push -----

  /** Appending whole to a linear run. */
  lemma AppendWhole(mem: seq<Byte>, mem': seq<Byte>, head: nat, tail: nat, msgs: seq<Msg>, m: Msg)
    requires Linear(mem, head, tail, msgs) && head <= tail && WroteWhole(mem, mem', tail, m)
    ensures Linear(mem', head, tail + Len(m), msgs + [m])
  {
    SubSlice(mem, mem', 0, tail, head, tail);
    LinearFrame(mem, mem', head, tail, msgs);
    LinearAppend(mem', head, tail, msgs, m);
  }

  lemma PushWhole(q: Queue, q': Queue, m: Msg, msgs: seq<Msg>)
    requires Represents(q, msgs) && q.head <= q.tail && Shape(q') && q'.head == q.head && q'.tail != q.head
    requires WroteWhole(q.mem, q'.mem, q.tail, m) && q'.tail == Wrap(q.tail + Len(m), |q.mem|)
    ensures Represents(q', msgs + [m])
  {
    var msgs' := msgs + [m];
    AppendWhole(q.mem, q'.mem, q.head, q.tail, msgs, m);
    if q'.tail == 0 {
      assert msgs'[..|msgs'|] == msgs' && msgs'[|msgs'|..] == [];
      assert SplitAt(q', msgs', |q.mem|, |msgs'|);
    }
  }

  lemma PushSplit(q: Queue, q': Queue, m: Msg, msgs: seq<Msg>)
    requires Represents(q, msgs) && q.head <= q.tail && Shape(q') && q'.head == q.head && q'.tail != q.head && Len(m) <= |q.mem|
    requires WroteSplit(q.mem, q'.mem, q.tail, m) && q'.tail == Len(m) - INT_SIZE <= q.head
    ensures Represents(q', msgs + [m])
  {
    var msgs' := msgs + [m];
    SubSlice(q.mem, q'.mem, Len(m) - INT_SIZE, q.tail, q.head, q.tail);
    LinearFrame(q.mem, q'.mem, q.head, q.tail, msgs);
    assert msgs'[..|msgs|] == msgs && msgs'[|msgs|..] == [m] && [m][1..] == [];
    assert SplitAt(q', msgs', q.tail, |msgs|);
  }

  lemma TurnedBounds(mem: seq<Byte>, turn: nat, tail: nat, msgs: seq<Msg>)
    requires Turned(mem, turn, tail, msgs)
    ensures turn <= |mem|
  {
  }

  lemma BodyFrame(mem: seq<Byte>, mem': seq<Byte>, end: nat, m: Msg)
    requires BodyAt(mem, 0, m) && |mem'| == |mem| && Len(m) - INT_SIZE <= end <= |mem| && mem'[0..end] == mem[0..end]
    ensures BodyAt(mem', 0, m)
  {
    SubSlice(mem, mem', 0, end, 0, INT_SIZE);
    SubSlice(mem, mem', 0, end, INT_SIZE, INT_SIZE + |m.work|);
  }

  /** The part after the turn, when m is appended below the head. */
  lemma TurnedAppend(mem: seq<Byte>, mem': seq<Byte>, turn: nat, tail: nat, msgs: seq<Msg>, m: Msg)
    requires Turned(mem, turn, tail, msgs) && WroteWhole(mem, mem', tail, m) && tail + Len(m) <= turn
    ensures Turned(mem', turn, tail + Len(m), msgs + [m])
  {
    if turn == |mem| {
      AppendWhole(mem, mem', 0, tail, msgs, m);
    } else {
      var first, after := msgs[0], Len(msgs[0]) - INT_SIZE;
      LinearBounds(mem, after, tail, msgs[1..]);
      AppendWhole(mem, mem', after, tail, msgs[1..], m);
      assert (msgs + [m])[1..] == msgs[1..] + [m];
      BodyFrame(mem, mem', tail, first);
      SubSlice(mem, mem', tail + Len(m), |mem|, turn, turn + INT_SIZE);
    }
  }

  lemma AppendTurned(mem: seq<Byte>, mem': seq<Byte>, head: nat, turn: nat, tail: nat, first: seq<Msg>, rest: seq<Msg>, m: Msg)
    requires Linear(mem, head, turn, first) && Turned(mem, turn, tail, rest)
    requires WroteWhole(mem, mem', tail, m) && tail + Len(m) < head
    ensures Linear(mem', head, turn, first) && Turned(mem', turn, tail + Len(m), rest + [m])
  {
    TurnedBounds(mem, turn, tail, rest);
    LinearBounds(mem, head, turn, first);
    SubSlice(mem, mem', tail + Len(m), |mem|, head, turn);
    LinearFrame(mem, mem', head, turn, first);
    TurnedAppend(mem, mem', turn, tail, rest, m);
  }

  lemma PushWrapped(q: Queue, q': Queue, m: Msg, msgs: seq<Msg>, turn: nat, k: nat)
    requires SplitAt(q, msgs, turn, k) && WroteWhole(q.mem, q'.mem, q.tail, m)
    requires q'.head == q.head && q'.tail == q.tail + Len(m) < q.head
    ensures SplitAt(q', msgs + [m], turn, k)
  {
    AppendTurned(q.mem, q'.mem, q.head, turn, q.tail, msgs[..k], msgs[k..], m);
    assert (msgs + [m])[..k] == msgs[..k] && (msgs + [m])[k..] == msgs[k..] + [m];
  }

  /** An accepted push appends to the FIFO if and only if it does not make the tail land on the head. */
  lemma PushIsFifo(q: Queue, m: Msg, msgs: seq<Msg>)
    requires Represents(q, msgs) && Aligned(q) && Len(m) <= |q.mem| && HasRoom(q, Len(m))
    ensures Aligned(Push(q, m).value)
    ensures Represents(Push(q, m).value, msgs + [m]) <==> !Lands(q, Len(m))
  {
    PushShape(q, m);
    PushWrites(q, m);
    var q' := Push(q, m).value;
    if !Lands(q, Len(m)) {
      if q.head <= q.tail {
        if |q.mem| - q.tail >= Len(m) {
          PushWhole(q, q', m, msgs);
        } else {
          PushSplit(q, q', m, msgs);
        }
      } else {
        var turn: nat, k: nat :| SplitAt(q, msgs, turn, k);
        PushWrapped(q, q', m, msgs, turn, k);
      }
    }
  }

  // ----- pop -----

  lemma ReadWhole(q: Queue, m: Msg)
    requires Shape(q) && q.head != q.tail && q.head + Len(m) <= |q.mem|
    requires SizeAt(q.mem, q.head, m) && BodyAt(q.mem, q.head + INT_SIZE, m)
    ensures Readable(q) && Pop(q) == Some((m, Advance(q, Wrap(q.head + Len(m), |q.mem|))))
  {
    IntRoundTrip(q.mem, q.head, |m.work|);
    IntRoundTrip(q.mem, q.head + INT_SIZE, m.pos);
  }

  lemma ReadSplit(q: Queue, m: Msg)
    requires Shape(q) && q.head != q.tail && Len(m) <= |q.mem| < q.head + Len(m)
    requires SizeAt(q.mem, q.head, m) && BodyAt(q.mem, 0, m)
    ensures Readable(q) && Pop(q) == Some((m, Advance(q, Len(m) - INT_SIZE)))
  {
    IntRoundTrip(q.mem, q.head, |m.work|);
    IntRoundTrip(q.mem, 0, m.pos);
  }

  /** The head moved to a place from which msgs lie linearly to the tail. */
  lemma AdvanceLinear(q: Queue, head: nat, msgs: seq<Msg>)
    requires Shape(q) && Linear(q.mem, head, q.tail, msgs)
    ensures Represents(Advance(q, head), msgs)
  {
    LinearBounds(q.mem, head, q.tail, msgs);
  }

  /** m is what a worker takes, and msgs is what is left. */
  ghost predicate Takes(q: Queue, m: Msg, msgs: seq<Msg>) {
    match q
    case Queue(_, _, _) => Shape(q) && Readable(q) && Pop(q).Some? && Pop(q).value.0 == m && Represents(Pop(q).value.1, msgs)
  }

  lemma PopUnwrapped(q: Queue, msgs: seq<Msg>)
    requires Represents(q, msgs) && msgs != [] && q.head <= q.tail
    ensures Takes(q, msgs[0], msgs[1..])
  {
    LinearBounds(q.mem, q.head, q.tail, msgs);
    ReadWhole(q, msgs[0]);
    AdvanceLinear(q, q.head + Len(msgs[0]), msgs[1..]);
  }

  /** The oldest message is whole, and reaches the end of the buffer. */
  lemma PopLast(q: Queue, m: Msg, left: seq<Msg>, rest: seq<Msg>, turn: nat)
    requires Shape(q) && q.head > q.tail && Linear(q.mem, q.head, turn, [m] + left) && Turned(q.mem, turn, q.tail, rest)
    requires q.head + Len(m) == |q.mem|
    ensures Takes(q, m, left + rest)
  {
    assert ([m] + left)[1..] == left;
    LinearBounds(q.mem, q.head + Len(m), turn, left);
    assert left + rest == rest;
    ReadWhole(q, m);
    AdvanceLinear(q, 0, rest);
  }

  /** The oldest message is whole, and more follows before the end of the buffer. */
  lemma PopInner(q: Queue, m: Msg, left: seq<Msg>, rest: seq<Msg>, turn: nat)
    requires Shape(q) && q.head > q.tail && Linear(q.mem, q.head, turn, [m] + left) && Turned(q.mem, turn, q.tail, rest)
    requires q.head + Len(m) + INT_SIZE <= |q.mem|
    ensures Takes(q, m, left + rest)
  {
    assert ([m] + left)[1..] == left;
    ReadWhole(q, m);
    AdvanceSplit(q, q.head + Len(m), left, rest, turn);
  }

  lemma AdvanceSplit(q: Queue, head: nat, left: seq<Msg>, rest: seq<Msg>, turn: nat)
    requires Shape(q) && q.tail < head && head + INT_SIZE <= |q.mem| && Linear(q.mem, head, turn, left) && Turned(q.mem, turn, q.tail, rest)
    ensures Represents(Advance(q, head), left + rest)
  {
    assert (left + rest)[..|left|] == left && (left + rest)[|left|..] == rest;
    assert SplitAt(q.(head := head), left + rest, turn, |left|);
  }

  lemma PopTurn(q: Queue, msgs: seq<Msg>)
    requires Shape(q) && q.head > q.tail && Turned(q.mem, q.head, q.tail, msgs)
    ensures msgs != [] && Takes(q, msgs[0], msgs[1..])
  {
    ReadSplit(q, msgs[0]);
    AdvanceLinear(q, Len(msgs[0]) - INT_SIZE, msgs[1..]);
  }

  lemma PopShape(q: Queue, m: Msg)
    requires Aligned(q) && q.head + Len(m) <= |q.mem|
    ensures q.head + Len(m) == |q.mem| || q.head + Len(m) + INT_SIZE <= |q.mem|
  {
    LenAligned(|m.work|);
    EndAligned(q.head, Len(m), |q.mem|);
  }

  lemma PopWrapped(q: Queue, msgs: seq<Msg>, turn: nat, k: nat)
    requires Shape(q) && Aligned(q) && q.head > q.tail && SplitAt(q, msgs, turn, k)
    ensures msgs != [] && Takes(q, msgs[0], msgs[1..])
  {
    TurnedBounds(q.mem, turn, q.tail, msgs[k..]);
    if k > 0 {
      var left, rest := msgs[1..k], msgs[k..];
      assert msgs[..k] == [msgs[0]] + left && msgs[1..] == left + rest;
      PopShape(q, msgs[0]);
      if q.head + Len(msgs[0]) == |q.mem| {
        PopLast(q, msgs[0], left, rest, turn);
      } else {
        PopInner(q, msgs[0], left, rest, turn);
      }
    } else {
      assert msgs[0..] == msgs && msgs[..0] == [];
      PopTurn(q, msgs);
    }
  }

  /** A worker takes the oldest message, unchanged, and nothing only when there is none. */
  lemma PopIsFifo(q: Queue, msgs: seq<Msg>)
    requires Represents(q, msgs) && Aligned(q)
    ensures if msgs == [] then Readable(q) && Pop(q).None? else Takes(q, msgs[0], msgs[1..])
  {
    if q.head > q.tail {
      var turn: nat, k: nat :| SplitAt(q, msgs, turn, k);
      PopWrapped(q, msgs, turn, k);
    } else if msgs != [] {
      PopUnwrapped(q, msgs);
    }
  }

  lemma PopAligned(q: Queue)
    requires Shape(q) && Readable(q) && Aligned(q) && Pop(q).Some?
    ensures Aligned(Pop(q).value.1)
  {
    var size := IntAt(q.mem, q.head);
    LenAligned(size);
    HeadAligned(q.head, MsgLen(size), |q.mem|);
  }

  lemma HeadAligned(head: nat, len: nat, size: nat)
    requires head % 4 == 0 && len % 4 == 0 && len >= 4 && size % 4 == 0
    ensures (len - 4) % 4 == 0 && Wrap(head + len, size) % 4 == 0
  {
  }

  // ----- whole runs -----

  /** What the receiver and the workers do to the queue; a push waits until it is accepted. */
  datatype Event = Pushed(m: Msg) | Popped(m: Msg) | NoWork

  ghost predicate Step(q: Queue, e: Event, q': Queue) {
    match e
    case Pushed(m) => Shape(q) && Len(m) <= |q.mem| && HasRoom(q, Len(m)) && q' == Push(q, m).value
    case Popped(m) => Shape(q) && Readable(q) && Pop(q) == Some((m, q'))
    case NoWork => Shape(q) && q.head == q.tail && q' == q
  }

  ghost predicate StepAt(qs: seq<Queue>, es: seq<Event>, i: nat)
    requires |qs| == |es| + 1 && i < |es|
  {
    Step(qs[i], es[i], qs[i + 1])
  }

  ghost predicate Run(qs: seq<Queue>, es: seq<Event>) {
    && |qs| == |es| + 1 && Shape(qs[0]) && Aligned(qs[0]) && qs[0].head == qs[0].tail == 0
    && forall i {:trigger StepAt(qs, es, i)} :: 0 <= i < |es| ==> StepAt(qs, es, i)
  }

  /** No accepted push among the first n events makes the tail land on the head. */
  ghost predicate NoLanding(qs: seq<Queue>, es: seq<Event>, n: nat)
    requires |qs| == |es| + 1 && n <= |es|
  {
    forall i {:trigger es[i]} :: 0 <= i < n && es[i].Pushed? && Shape(qs[i]) ==> !Lands(qs[i], Len(es[i].m))
  }

  function PushedMsgs(es: seq<Event>): seq<Msg> {
    if es == [] then []
    else
      var init, last := PushedMsgs(es[..|es| - 1]), es[|es| - 1];
      if last.Pushed? then init + [last.m] else init
  }

  function PoppedMsgs(es: seq<Event>): seq<Msg> {
    if es == [] then []
    else
      var init, last := PoppedMsgs(es[..|es| - 1]), es[|es| - 1];
      if last.Popped? then init + [last.m] else init
  }

  /** The simple queue. */
  predicate FifoStep(msgs: seq<Msg>, e: Event, msgs': seq<Msg>) {
    match e
    case Pushed(m) => msgs' == msgs + [m]
    case Popped(m) => msgs == [m] + msgs'
    case NoWork => msgs == msgs' == []
  }

  lemma FifoCount(es: seq<Event>, n: nat, msgs: seq<Msg>, msgs': seq<Msg>)
    requires n < |es| && FifoStep(msgs, es[n], msgs') && PoppedMsgs(es[..n]) + msgs == PushedMsgs(es[..n])
    ensures PoppedMsgs(es[..n + 1]) + msgs' == PushedMsgs(es[..n + 1])
  {
    assert es[..n + 1][..n] == es[..n];
    match es[n]
    case Pushed(m) =>
      assert PoppedMsgs(es[..n]) + (msgs + [m]) == (PoppedMsgs(es[..n]) + msgs) + [m];
    case Popped(m) =>
      assert (PoppedMsgs(es[..n]) + [m]) + msgs' == PoppedMsgs(es[..n]) + ([m] + msgs');
    case NoWork =>
  }

  lemma StepPop(q: Queue, e: Event, q': Queue, msgs: seq<Msg>)
    requires Represents(q, msgs) && Aligned(q) && Step(q, e, q') && e.Popped?
    ensures msgs != [] && Represents(q', msgs[1..]) && Aligned(q') && msgs == [e.m] + msgs[1..]
  {
    PopIsFifo(q, msgs);
    PopAligned(q);
  }

  lemma StepIdle(q: Queue, e: Event, q': Queue, msgs: seq<Msg>)
    requires Represents(q, msgs) && Aligned(q) && Step(q, e, q') && e.NoWork?
    ensures msgs == [] && q' == q
  {
    PopIsFifo(q, msgs);
  }

  lemma StepFifo(q: Queue, e: Event, q': Queue, msgs: seq<Msg>) returns (msgs': seq<Msg>)
    requires Represents(q, msgs) && Aligned(q) && Step(q, e, q') && (e.Pushed? ==> !Lands(q, Len(e.m)))
    ensures Represents(q', msgs') && Aligned(q') && FifoStep(msgs, e, msgs')
  {
    match e
    case Pushed(m) =>
      PushIsFifo(q, m, msgs);
      msgs' := msgs + [m];
    case Popped(m) =>
      StepPop(q, e, q', msgs);
      msgs' := msgs[1..];
    case NoWork =>
      StepIdle(q, e, q', msgs);
      msgs' := [];
  }

  /** While no push lands on the head, what was popped is what was pushed, in order, and the rest is in the queue. */
  lemma {:induction false} RunFifo(qs: seq<Queue>, es: seq<Event>, n: nat) returns (msgs: seq<Msg>)
    requires Run(qs, es) && n <= |es| && NoLanding(qs, es, n)
    ensures Represents(qs[n], msgs) && Aligned(qs[n]) && PoppedMsgs(es[..n]) + msgs == PushedMsgs(es[..n])
  {
    if n == 0 {
      msgs := [];
    } else {
      var before := RunFifo(qs, es, n - 1);
      assert StepAt(qs, es, n - 1);
      msgs := StepFifo(qs[n - 1], es[n - 1], qs[n], before);
      FifoCount(es, n - 1, before, msgs);
    }
  }

  /** Then a worker goes to sleep only when everything pushed has been popped. */
  lemma NoWorkMeansDone(qs: seq<Queue>, es: seq<Event>, n: nat)
    requires Run(qs, es) && n < |es| && NoLanding(qs, es, n) && es[n] == NoWork
    ensures PoppedMsgs(es[..n]) == PushedMsgs(es[..n])
  {
    var msgs := RunFifo(qs, es, n);
    assert StepAt(qs, es, n);
    PopIsFifo(qs[n], msgs);
  }

  /** In such a run a queue from which everything was popped is reset, so it accepts every message that fits the buffer. */
  lemma EmptiedAcceptsAll(qs: seq<Queue>, es: seq<Event>, n: nat, m: Msg)
    requires Run(qs, es) && n <= |es| && NoLanding(qs, es, n) && PoppedMsgs(es[..n]) == PushedMsgs(es[..n]) && Len(m) <= |qs[n].mem|
    ensures Shape(qs[n]) && qs[n].head == qs[n].tail == 0 && Push(qs[n], m).Some?
  {
    var msgs := RunFifo(qs, es, n);
    EmptyAtStart(qs, es, n);
    assert PoppedMsgs(es[..n]) + msgs == PushedMsgs(es[..n]);
    assert |PoppedMsgs(es[..n])| + |msgs| == |PushedMsgs(es[..n])|;
    assert msgs == [];
  }

  /** An empty queue has its head at 0. */
  lemma {:induction false} EmptyAtStart(qs: seq<Queue>, es: seq<Event>, n: nat)
    requires Run(qs, es) && n <= |es| && NoLanding(qs, es, n)
    ensures qs[n].head == qs[n].tail ==> qs[n].head == 0
  {
    if n > 0 {
      EmptyAtStart(qs, es, n - 1);
      assert StepAt(qs, es, n - 1);
      var q := qs[n - 1];
      if es[n - 1].Pushed? {
        assert Shape(q) ==> !Lands(q, Len(es[n - 1].m));
      }
    }
  }

  /** But right after the first push that does, every worker goes to sleep with work left. */
  lemma LandingLosesWork(qs: seq<Queue>, es: seq<Event>, n: nat)
    requires Run(qs, es) && n < |es| && NoLanding(qs, es, n)
    requires es[n].Pushed? && Shape(qs[n]) && Lands(qs[n], Len(es[n].m))
    ensures Step(qs[n + 1], NoWork, qs[n + 1]) && PoppedMsgs(es[..n + 1]) != PushedMsgs(es[..n + 1])
  {
    var msgs := RunFifo(qs, es, n);
    assert StepAt(qs, es, n);
    PushShape(qs[n], es[n].m);
    assert es[..n + 1][..n] == es[..n];
    assert |PushedMsgs(es[..n + 1])| == |PoppedMsgs(es[..n])| + |msgs| + 1;
  }

  lemma {:induction false} MaxAlignOfEights(n: nat)
    ensures MaxAlign(8 * n) == 8 * n
  {
    if n > 1 {
      MaxAlignOfEights(n - 1);
    }
  }

  /** A job of half the buffer. */
  lemma HalfBuffer(k: nat, m: Msg)
    requires k >= 1 && |m.work| == 1024 * k - 8
    ensures Len(m) == 1024 * k
  {
    MaxAlignOfEights(128 * k - 1);
  }

  /** A cell with stored bytes: from the head on, around the end, up to the tail. */
  predicate Used(q: Queue, i: nat) {
    if q.head <= q.tail then q.head <= i < q.tail else i >= q.head || i < q.tail
  }

  /** A cell of the place where a message of len is to go: at the tail, or the size word there and the rest at the beginning. */
  predicate Wanted(q: Queue, len: nat, i: nat)
    requires Shape(q) && len >= INT_SIZE
  {
    if |q.mem| - q.tail >= len then q.tail <= i < q.tail + len else q.tail <= i < q.tail + INT_SIZE || i < len - INT_SIZE
  }

  /** There is room exactly when no stored byte is in the way; an empty queue, which starts at 0, has room for whatever fits. */
  lemma RoomIff(q: Queue, m: Msg)
    requires Shape(q) && Len(m) <= |q.mem| && (q.head == q.tail ==> q.head == 0)
    ensures Push(q, m).Some? <==> forall i: nat {:trigger Used(q, i)} :: i < |q.mem| && Used(q, i) ==> !Wanted(q, Len(m), i)
    ensures q.head == q.tail ==> Push(q, m).Some?
  {
    var len := Len(m);
    if !HasRoom(q, len) {
      var i := if |q.mem| - q.tail >= len || q.head <= q.tail then q.head else 0;
      assert Used(q, i) && Wanted(q, len, i);
    }
  }

  lemma ElsewhereKept(mem: seq<Byte>, at: nat, bytes: seq<Byte>, i: nat)
    requires at + |bytes| <= |mem| && i < |mem| && !(at <= i < at + |bytes|)
    ensures Write(mem, at, bytes)[i] == mem[i]
  {
  }

  lemma BodyElsewhere(mem: seq<Byte>, at: nat, m: Msg, i: nat)
    requires at + Len(m) - INT_SIZE <= |mem| && i < |mem| && !(at <= i < at + Len(m) - INT_SIZE)
    ensures WriteBody(mem, at, m)[i] == mem[i]
  {
    ElsewhereKept(mem, at, IntBytes(m.pos), i);
    ElsewhereKept(Write(mem, at, IntBytes(m.pos)), at + INT_SIZE, m.work, i);
  }

  /** And a push writes nowhere else. */
  lemma PushWritesThere(q: Queue, m: Msg, i: nat)
    requires Shape(q) && Len(m) <= |q.mem| && Push(q, m).Some? && i < |q.mem| && !Wanted(q, Len(m), i)
    ensures Push(q, m).value.mem[i] == q.mem[i]
  {
    ElsewhereKept(q.mem, q.tail, IntBytes(|m.work|), i);
    BodyElsewhere(Write(q.mem, q.tail, IntBytes(|m.work|)), if |q.mem| - q.tail >= Len(m) then q.tail + INT_SIZE else 0, m, i);
  }

  /** What is below the spill threshold of k kilobytes fits the buffer of twice that size. */
  lemma BelowThresholdFits(k: nat, m: Msg)
    requires k >= 1 && |m.work| < 1024 * k
    ensures Len(m) <= 2048 * k
  {
  }

  /**
    The buffer is twice the spill threshold of k kilobytes. Two jobs just below it fill the buffer: the second
    leaves the tail on the head, and every worker goes to sleep with both of them waiting.
   */
  lemma LandingExample(k: nat, mem: seq<Byte>, m1: Msg, m2: Msg) returns (qs: seq<Queue>, es: seq<Event>)
    requires k >= 1 && |mem| == 2048 * k && |m1.work| == 1024 * k - 8 && |m2.work| == 1024 * k - 8
    ensures Run(qs, es) && es == [Pushed(m1), Pushed(m2)] && qs[0] == Queue(mem, 0, 0)
    ensures Step(qs[2], NoWork, qs[2]) && PoppedMsgs(es) != PushedMsgs(es)
  {
    HalfBuffer(k, m1);
    HalfBuffer(k, m2);
    var q0 := Queue(mem, 0, 0);
    PushShape(q0, m1);
    var q1 := Push(q0, m1).value;
    PushShape(q1, m2);
    var q2 := Push(q1, m2).value;
    qs, es := [q0, q1, q2], [Pushed(m1), Pushed(m2)];
    PushWrites(q0, m1);
    assert q1.tail == 1024 * k && |q1.mem| == |mem|;
    forall i | 0 <= i < |es|
      ensures StepAt(qs, es, i)
    {
      assert i == 0 || i == 1;
    }
    LandingLosesWork(qs, es, 1);
    assert es[..2] == es;
  }

  // ----- in place -----

  class WorkerPool {
    const queue: array<Byte>
    var head: nat
    var tail: nat

    constructor (size: nat)
      requires size >= INT_SIZE && size % 4 == 0
      ensures queue.Length == size && fresh(queue) && Shape(Value()) && Aligned(Value()) && Represents(Value(), [])
    {
      queue := new Byte[size](_ => Plain(0));
      head, tail := 0, 0;
    }

    function Value(): Queue
      reads this, queue
    {
      Queue(queue[..], head, tail)
    }

    method CopyIn(at: nat, bytes: seq<Byte>)
      requires at + |bytes| <= queue.Length
      modifies queue
      ensures queue[..] == Write(old(queue[..]), at, bytes)
    {
      for i := 0 to |bytes|
        invariant queue[..] == old(queue[..at]) + bytes[..i] + old(queue[at + i..])
      {
        queue[at + i] := bytes[i];
      }
    }

    /** One attempt of BgwPoolExecute: false means that the receiver has to wait, for the buffer or for the transaction list. */
    method TryPush(m: Msg, listHasRoom: bool) returns (accepted: bool)
      requires Shape(Value()) && Len(m) <= queue.Length
      modifies this, queue
      ensures accepted <==> Push(old(Value()), m).Some? && listHasRoom
      ensures Value() == if accepted then Push(old(Value()), m).value else old(Value())
    {
      var len := Len(m);
      accepted := HasRoom(Value(), len) && listHasRoom;
      if !accepted {
        return;
      }
      CopyIn(tail, IntBytes(|m.work|));
      if queue.Length - tail >= len {
        CopyIn(tail + INT_SIZE, IntBytes(m.pos));
        CopyIn(tail + 2 * INT_SIZE, m.work);
        tail := tail + len;
      } else {
        CopyIn(0, IntBytes(m.pos));
        CopyIn(INT_SIZE, m.work);
        tail := len - INT_SIZE;
      }
      if tail == queue.Length {
        tail := 0;
      }
    }

    /** One turn of BgwPoolMainLoop: None means that the worker goes to sleep. */
    method TryPop() returns (r: Option<Msg>)
      requires Shape(Value()) && Readable(Value())
      modifies this
      ensures r.None? <==> Pop(old(Value())).None?
      ensures r.None? ==> Value() == old(Value())
      ensures r.Some? ==> Pop(old(Value())) == Some((r.value, Value()))
    {
      if head == tail {
        return None;
      }
      ghost var q := Value();
      var size := IntAt(queue[..], head);
      var at;
      if head + MsgLen(size) > queue.Length {
        at := 0;
        head := MsgLen(size) - INT_SIZE;
      } else {
        at := head + INT_SIZE;
        head := head + MsgLen(size);
      }
      r := Some(Msg(IntAt(queue[..], at), queue[at + INT_SIZE..at + INT_SIZE + size]));
      assert queue[at + INT_SIZE..at + INT_SIZE + size] == q.mem[at + INT_SIZE..at + INT_SIZE + size];
      if head == queue.Length {
        head := 0;
      }
      if head == tail {
        head, tail := 0, 0;
      }
    }
  }
}
