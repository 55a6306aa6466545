/**
  Reassembly of CopyData messages from a socket that delivers arbitrary chunks (src/dmq.c): a byte
  of type, then a length word that counts itself, then the payload, through a fixed receive buffer.
 */
module DmqReader {

  datatype Byte = Byte(value: nat)

  const DMQ_RECV_BUFFER: nat := 8192
  const HEADER: nat := 4
  const COPY_DATA := Byte(100)
  const COPY_DONE := Byte(99)

  datatype Option<T> = None | Some(value: T)

  // ----- the stream -----

  type Payload = seq<Byte>

  /** A length in network byte order. */
  function LengthWord(len: nat): (w: seq<Byte>)
    ensures |w| == HEADER && w[3] == Byte(len % 256) && w[2] == Byte(len / 256 % 256)
  {
    [Byte(len / 256 / 256 / 256), Byte(len / 256 / 256 % 256), Byte(len / 256 % 256), Byte(len % 256)]
  }

  /** pg_ntoh32 */
  function Ntoh32(b: seq<Byte>): nat
    requires |b| == HEADER
  {
    ((b[0].value * 256 + b[1].value) * 256 + b[2].value) * 256 + b[3].value
  }

  lemma LengthRoundTrip(len: nat)
    ensures Ntoh32(LengthWord(len)) == len
  {
  }

  /** Payloads whose messages fit into the receive buffer. */
  ghost predicate Sendable(ps: seq<Payload>) {
    forall i :: 0 <= i < |ps| ==> |ps[i]| + HEADER < DMQ_RECV_BUFFER
  }

  function Message(p: Payload): seq<Byte> {
    LengthWord(|p| + HEADER) + p
  }

  function Encode(ps: seq<Payload>): seq<Byte> {
    if ps == [] then [] else Encode(ps[..|ps| - 1]) + [COPY_DATA] + Message(ps[|ps| - 1])
  }

  /** Everything the sender sends: the messages, then CopyDone. */
  function Stream(ps: seq<Payload>): seq<Byte> {
    Encode(ps) + [COPY_DONE]
  }

  /** Where the k-th message starts, with its type byte. */
  function Offset(ps: seq<Payload>, k: nat): nat
    requires k <= |ps|
  {
    |Encode(ps[..k])|
  }

  lemma {:induction false} EncodePrefix(ps: seq<Payload>, k: nat)
    requires k <= |ps|
    ensures Offset(ps, k) <= |Encode(ps)| && Encode(ps)[..Offset(ps, k)] == Encode(ps[..k])
  {
    if k == |ps| {
      assert ps[..k] == ps;
    } else {
      var init := ps[..|ps| - 1];
      EncodePrefix(init, k);
      assert init[..k] == ps[..k];
    }
  }

  /** The k-th message in the stream. */
  lemma MessageAt(ps: seq<Payload>, k: nat)
    requires k < |ps|
    ensures Offset(ps, k + 1) == Offset(ps, k) + 1 + HEADER + |ps[k]| < |Stream(ps)|
    ensures Stream(ps)[Offset(ps, k)] == COPY_DATA
    ensures Stream(ps)[Offset(ps, k) + 1..Offset(ps, k + 1)] == Message(ps[k])
  {
    EncodePrefix(ps, k + 1);
    assert ps[..k + 1][..k] == ps[..k];
    var at, end, e := Offset(ps, k), Offset(ps, k + 1), Encode(ps[..k + 1]);
    assert e == Encode(ps[..k]) + [COPY_DATA] + Message(ps[k]);
    assert Stream(ps)[..end] == e;
    assert Stream(ps)[at + 1..end] == e[at + 1..end];
    assert e[at + 1..] == Message(ps[k]);
  }

  lemma DoneAt(ps: seq<Payload>)
    ensures Offset(ps, |ps|) + 1 == |Stream(ps)| && Stream(ps)[Offset(ps, |ps|)] == COPY_DONE
  {
    assert ps[..|ps|] == ps;
  }

  /** The length word of the k-th message. */
  lemma HeaderAt(ps: seq<Payload>, k: nat)
    requires k < |ps|
    ensures Offset(ps, k) + 1 + HEADER <= |Stream(ps)|
    ensures Ntoh32(Stream(ps)[Offset(ps, k) + 1..Offset(ps, k) + 1 + HEADER]) == |ps[k]| + HEADER
  {
    MessageAt(ps, k);
    var at, s := Offset(ps, k) + 1, Stream(ps);
    assert s[at..at + HEADER] == s[at..Offset(ps, k + 1)][..HEADER];
    assert Message(ps[k])[..HEADER] == LengthWord(|ps[k]| + HEADER);
    LengthRoundTrip(|ps[k]| + HEADER);
  }

  /** How many messages n received bytes complete does not depend on how they came. */
  lemma {:induction false} CountIsUnique(ps: seq<Payload>, n: nat, j: nat, k: nat)
    requires Delivered(ps, n, j) && Delivered(ps, n, k)
    ensures j == k
  {
    if j < k {
      OffsetGrows(ps, j + 1, k);
    } else if k < j {
      OffsetGrows(ps, k + 1, j);
    }
  }

  lemma {:induction false} OffsetGrows(ps: seq<Payload>, j: nat, k: nat)
    requires j <= k <= |ps|
    ensures Offset(ps, j) <= Offset(ps, k)
  {
    if j < k {
      OffsetGrows(ps, j, k - 1);
      MessageAt(ps, k - 1);
    }
  }

  // ----- what is unread -----

  /** Messages handed out, whether the type byte of the next one has been read, and bytes taken from the socket. */
  datatype Place = Place(count: nat, inMessage: bool, taken: nat)

  function Start(ps: seq<Payload>, at: Place): nat
    requires at.count <= |ps|
  {
    Offset(ps, at.count) + if at.inMessage then 1 else 0
  }

  /** unread is what was taken from the stream and not handed out. */
  ghost predicate Unread(ps: seq<Payload>, at: Place, unread: seq<Byte>) {
    match at
    case Place(count, inMessage, taken) =>
      && Sendable(ps) && count <= |ps| && (inMessage ==> count < |ps|)
      && Start(ps, at) <= taken <= |Stream(ps)| && unread == Stream(ps)[Start(ps, at)..taken]
  }

  /** The next message is not complete in what was taken from the socket. */
  ghost predicate Incomplete(ps: seq<Payload>, at: Place) {
    match at
    case Place(count, _, taken) => count < |ps| ==> taken < Offset(ps, count + 1)
  }

  lemma UnreadHeader(ps: seq<Payload>, at: Place, unread: seq<Byte>)
    requires Unread(ps, at, unread) && at.inMessage && |unread| >= HEADER
    ensures Ntoh32(unread[..HEADER]) == |ps[at.count]| + HEADER
  {
    HeaderAt(ps, at.count);
    assert unread[..HEADER] == Stream(ps)[Offset(ps, at.count) + 1..Offset(ps, at.count) + 1 + HEADER];
  }

  /** A complete message is the next payload, and what follows is the rest of the stream. */
  lemma TakeMessage(ps: seq<Payload>, at: Place, unread: seq<Byte>)
    requires Unread(ps, at, unread) && at.inMessage && |ps[at.count]| + HEADER <= |unread|
    ensures var len := |ps[at.count]| + HEADER;
            && unread[HEADER..len] == ps[at.count]
            && Unread(ps, Place(at.count + 1, false, at.taken), unread[len..])
  {
    MessageAt(ps, at.count);
    var from, len := Offset(ps, at.count) + 1, |ps[at.count]| + HEADER;
    assert unread[..len] == Stream(ps)[from..Offset(ps, at.count + 1)];
    assert unread[HEADER..len] == unread[..len][HEADER..];
    assert Message(ps[at.count])[HEADER..] == ps[at.count];
  }

  lemma NotYet(ps: seq<Payload>, at: Place, unread: seq<Byte>)
    requires Unread(ps, at, unread) && at.inMessage && |unread| < |ps[at.count]| + HEADER
    ensures Incomplete(ps, at)
  {
    MessageAt(ps, at.count);
  }

  /** The byte between messages announces a message, or the end after the last one. */
  lemma TakeByte(ps: seq<Payload>, at: Place, unread: seq<Byte>)
    requires Unread(ps, at, unread) && !at.inMessage && |unread| > 0
    ensures unread[0] == if at.count < |ps| then COPY_DATA else COPY_DONE
    ensures at.count < |ps| ==> Unread(ps, at.(inMessage := true), unread[1..])
  {
    if at.count < |ps| {
      MessageAt(ps, at.count);
    } else {
      DoneAt(ps);
    }
  }

  /** bytes are what the stream goes on with. */
  ghost predicate IsNext(ps: seq<Payload>, at: Place, bytes: seq<Byte>) {
    match at
    case Place(_, _, taken) => taken + |bytes| <= |Stream(ps)| && bytes == Stream(ps)[taken..taken + |bytes|]
  }

  lemma NextSplit(ps: seq<Payload>, at: Place, bytes: seq<Byte>, n: nat, at': Place)
    requires IsNext(ps, at, bytes) && n <= |bytes| && at'.taken == at.taken + n
    ensures IsNext(ps, at, bytes[..n]) && IsNext(ps, at', bytes[n..])
  {
    var s, taken := Stream(ps), at.taken;
    assert s[taken..taken + |bytes|][..n] == s[taken..taken + n];
    assert s[taken..taken + |bytes|][n..] == s[taken + n..taken + |bytes|];
  }

  lemma ReceiveBytes(ps: seq<Payload>, at: Place, unread: seq<Byte>, chunk: seq<Byte>)
    requires Unread(ps, at, unread) && IsNext(ps, at, chunk)
    ensures Unread(ps, at.(taken := at.taken + |chunk|), unread + chunk)
  {
  }

  // ----- the reader -----

  class Reader {
    const buffer: array<Byte>
    var recvBytes: nat
    var readBytes: nat
    /** reader_state is NeedMessage: the type byte of a message has been read. */
    var needMessage: bool
    ghost var taken: nat
    ghost var count: nat

    constructor (ghost ps: seq<Payload>)
      requires Sendable(ps)
      ensures Valid(ps) && Where() == Place(0, false, 0) && fresh(buffer)
    {
      buffer := new Byte[DMQ_RECV_BUFFER](_ => Byte(0));
      recvBytes, readBytes, needMessage, taken, count := 0, 0, false, 0, 0;
      new;
      assert ps[..0] == [];
    }

    ghost function Where(): Place
      reads this
    {
      Place(count, needMessage, taken)
    }

    /** Reading ps: everything taken from the socket was handed out, or is unread in the buffer. */
    ghost predicate Valid(ps: seq<Payload>)
      reads this, buffer
    {
      && buffer.Length == DMQ_RECV_BUFFER && readBytes <= recvBytes <= DMQ_RECV_BUFFER
      && Unread(ps, Where(), buffer[readBytes..recvBytes])
    }

    /** Left-justifies the unread bytes. */
    method Justify(ghost ps: seq<Payload>)
      requires Valid(ps)
      modifies buffer, this`recvBytes, this`readBytes
      ensures Valid(ps) && readBytes == 0 && recvBytes == old(recvBytes - readBytes)
    {
      var n := recvBytes - readBytes;
      MoveLeft(buffer, readBytes, n);
      assert buffer[0..n] == old(buffer[readBytes..recvBytes]);
      recvBytes, readBytes := n, 0;
    }

    /** Hands out the complete message of length len. */
    method TakeOut(ghost ps: seq<Payload>, len: nat) returns (r: Option<Payload>)
      requires Valid(ps) && needMessage && count < |ps| && len == |ps[count]| + HEADER && readBytes + len <= recvBytes
      modifies this
      ensures Valid(ps) && r == Some(ps[old(count)]) && Where() == Place(old(count) + 1, false, old(taken))
    {
      var unread := buffer[readBytes..recvBytes];
      TakeMessage(ps, Where(), unread);
      r := Some(unread[HEADER..len]);
      assert unread[len..] == buffer[readBytes + len..recvBytes];
      readBytes := readBytes + len;
      count, needMessage := count + 1, false;
    }

    /** _pq_have_full_message; on success the caller goes back to waiting for a type byte. */
    method HaveFullMessage(ghost ps: seq<Payload>) returns (r: Option<Payload>)
      requires Valid(ps) && needMessage
      modifies this, buffer
      ensures Valid(ps)
      ensures r.Some? ==> old(count) < |ps| && r.value == ps[old(count)] && Where() == Place(old(count) + 1, false, old(taken))
      ensures r.None? ==> Where() == old(Where()) && Incomplete(ps, Where())
      ensures r.None? && recvBytes == DMQ_RECV_BUFFER ==> 0 < readBytes
    {
      var unread := buffer[readBytes..recvBytes];
      if recvBytes - readBytes >= HEADER {
        UnreadHeader(ps, Where(), unread);
        var len := Ntoh32(unread[..HEADER]);
        if readBytes + len <= recvBytes {
          r := TakeOut(ps, len);
          return;
        }
        NotYet(ps, Where(), unread);
        if readBytes + len >= DMQ_RECV_BUFFER {
          Justify(ps);
        }
      } else {
        NotYet(ps, Where(), unread);
      }
      r := None;
    }

    /** What the buffer needs before a read from the socket. */
    method MakeRoom(ghost ps: seq<Payload>)
      requires Valid(ps) && (recvBytes == DMQ_RECV_BUFFER ==> 0 < readBytes)
      modifies this`recvBytes, this`readBytes, buffer
      ensures Valid(ps) && recvBytes < DMQ_RECV_BUFFER
    {
      if readBytes > 0 {
        if recvBytes == readBytes {
          assert buffer[0..0] == buffer[readBytes..recvBytes];
          recvBytes, readBytes := 0, 0;
        } else if recvBytes > DMQ_RECV_BUFFER - 1024 {
          Justify(ps);
        }
      }
    }

    /**
      _pq_getmessage_if_avalable; the socket holds `offered`, the next bytes of the stream (none: EAGAIN).
      n of them are read: as many as there is room for, and there always is some.
     */
    method GetMessage(ghost ps: seq<Payload>, offered: seq<Byte>) returns (r: Option<Payload>, n: nat)
      requires Valid(ps) && needMessage && IsNext(ps, Where(), offered)
      modifies this, buffer
      ensures Valid(ps) && n <= |offered| && taken == old(taken) + n
      ensures r.Some? ==> old(count) < |ps| && r.value == ps[old(count)] && count == old(count) + 1 && !needMessage
      ensures r.None? ==> count == old(count) && needMessage && Incomplete(ps, Where())
      ensures r.None? && |offered| > 0 ==> n > 0
    {
      n := 0;
      r := HaveFullMessage(ps);
      if r.Some? {
        return;
      }
      MakeRoom(ps);
      n := if |offered| <= DMQ_RECV_BUFFER - recvBytes then |offered| else DMQ_RECV_BUFFER - recvBytes;
      NextSplit(ps, Where(), offered, n, Where().(taken := taken + n));
      Receive(ps, offered[..n]);
      if n > 0 {
        r := HaveFullMessage(ps);
      }
    }

    /** secure_read into the buffer. */
    method Receive(ghost ps: seq<Payload>, chunk: seq<Byte>)
      requires Valid(ps) && |chunk| <= DMQ_RECV_BUFFER - recvBytes
      requires IsNext(ps, Where(), chunk)
      modifies this`recvBytes, this`taken, buffer
      ensures Valid(ps) && taken == old(taken) + |chunk|
    {
      ghost var unread := buffer[readBytes..recvBytes];
      ReceiveBytes(ps, Where(), unread, chunk);
      CopyTo(buffer, recvBytes, chunk, readBytes);
      recvBytes, taken := recvBytes + |chunk|, taken + |chunk|;
    }

    /** _pq_getbyte_if_available and the caller's reaction; done is true at CopyDone. */
    method GetByte(ghost ps: seq<Payload>, offered: seq<Byte>) returns (got: bool, done: bool, n: nat)
      requires Valid(ps) && !needMessage && IsNext(ps, Where(), offered)
      modifies this
      ensures n <= |offered| && taken == old(taken) + n && count == old(count)
      ensures !done ==> Valid(ps)
      ensures got && !done <==> needMessage
      ensures done ==> count == |ps| && taken == |Stream(ps)|
      ensures !got ==> Incomplete(ps, Where()) && |offered| == 0
    {
      n, got, done := 0, true, false;
      ghost var unread := buffer[readBytes..recvBytes];
      var c;
      if recvBytes > readBytes {
        TakeByte(ps, Where(), unread);
        c := buffer[readBytes];
        assert c == unread[0] && unread[1..] == buffer[readBytes + 1..recvBytes];
        readBytes := readBytes + 1;
      } else if |offered| > 0 {
        NextSplit(ps, Where(), offered, 1, Where().(taken := taken + 1));
        ReceiveBytes(ps, Where(), unread, offered[..1]);
        assert unread + offered[..1] == [offered[0]] && [offered[0]][1..] == [] == buffer[readBytes..recvBytes];
        TakeByte(ps, Where().(taken := taken + 1), [offered[0]]);
        c, n := offered[0], 1;
        taken := taken + 1;
      } else {
        got := false;
        NothingBetween(ps, Where());
        return;
      }
      if c == COPY_DATA {
        needMessage := true;
      } else {
        done := true;
        DoneAt(ps);
      }
    }
  }

  /** One turn of the receiver loop; idle means that there is nothing more to get from what the socket holds. */
  method Poll(reader: Reader, ghost ps: seq<Payload>, offered: seq<Byte>) returns (r: Option<Payload>, rest: seq<Byte>, done: bool, idle: bool)
    requires reader.Valid(ps) && IsNext(ps, reader.Where(), offered)
    modifies reader, reader.buffer
    ensures |rest| <= |offered| && reader.taken == old(reader.taken) + |offered| - |rest|
    ensures !done ==> reader.Valid(ps) && IsNext(ps, reader.Where(), rest)
    ensures done ==> r.None? && reader.count == old(reader.count) == |ps| && reader.taken == |Stream(ps)|
    ensures r.None? ==> reader.count == old(reader.count)
    ensures r.Some? ==> !idle && old(reader.count) < |ps| && reader.count == old(reader.count) + 1 && r.value == ps[old(reader.count)]
    ensures idle && !done ==> rest == [] && Incomplete(ps, reader.Where())
    ensures r.None? && !idle && !done ==> |rest| < |offered|
  {
    r, rest, done, idle := None, offered, false, false;
    ghost var before := reader.Where();
    if !reader.needMessage {
      var got, n;
      got, done, n := reader.GetByte(ps, rest);
      NextSplit(ps, before, rest, n, reader.Where());
      rest := rest[n..];
      if done || !got {
        idle := true;
        return;
      }
    }
    before := reader.Where();
    var m;
    r, m := reader.GetMessage(ps, rest);
    NextSplit(ps, before, rest, m, reader.Where());
    idle := r.None? && |rest| == 0;
    rest := rest[m..];
  }

  /** The receiver loop on what one wakeup finds in the socket. */
  method Feed(reader: Reader, ghost ps: seq<Payload>, chunk: seq<Byte>) returns (msgs: seq<Payload>, done: bool)
    requires reader.Valid(ps) && IsNext(ps, reader.Where(), chunk)
    modifies reader, reader.buffer
    ensures old(reader.count) <= reader.count <= |ps| && msgs == ps[old(reader.count)..reader.count]
    ensures done ==> reader.count == |ps| && reader.taken == |Stream(ps)| <= old(reader.taken) + |chunk|
    ensures !done ==> reader.Valid(ps) && Incomplete(ps, reader.Where()) && reader.taken == old(reader.taken) + |chunk|
  {
    msgs, done := [], false;
    var rest, idle := chunk, false;
    while !idle
      invariant !done ==> reader.Valid(ps) && IsNext(ps, reader.Where(), rest) && reader.taken == old(reader.taken) + |chunk| - |rest|
      invariant old(reader.count) <= reader.count <= |ps| && msgs == ps[old(reader.count)..reader.count]
      invariant done ==> idle && reader.count == |ps| && reader.taken == |Stream(ps)| <= old(reader.taken) + |chunk|
      invariant idle && !done ==> rest == [] && Incomplete(ps, reader.Where())
      decreases !idle, |ps| - reader.count, |rest|
    {
      var r;
      r, rest, done, idle := Poll(reader, ps, rest);
      idle := idle || done;
      if r.Some? {
        msgs := msgs + [r.value];
      }
    }
  }

  function Flatten(chunks: seq<seq<Byte>>): seq<Byte> {
    if chunks == [] then [] else chunks[0] + Flatten(chunks[1..])
  }

  lemma FlattenNext(ps: seq<Payload>, at: Place, rest: seq<seq<Byte>>)
    requires rest != [] && IsNext(ps, at, Flatten(rest))
    ensures IsNext(ps, at, rest[0]) && IsNext(ps, at.(taken := at.taken + |rest[0]|), Flatten(rest[1..]))
    ensures |Flatten(rest)| == |rest[0]| + |Flatten(rest[1..])|
  {
    assert rest[0] == Flatten(rest)[..|rest[0]|] && Flatten(rest[1..]) == Flatten(rest)[|rest[0]|..];
    NextSplit(ps, at, Flatten(rest), |rest[0]|, at.(taken := at.taken + |rest[0]|));
  }

  lemma NextElsewhere(ps: seq<Payload>, at: Place, at': Place, bytes: seq<Byte>)
    requires IsNext(ps, at, bytes) && at.taken == at'.taken
    ensures IsNext(ps, at', bytes)
  {
  }

  /** k messages were delivered from n bytes, and no more are complete. */
  ghost predicate Delivered(ps: seq<Payload>, n: nat, k: nat) {
    k <= |ps| && Offset(ps, k) <= n && (k < |ps| ==> n < Offset(ps, k + 1))
  }

  /** The receiver loop on a sequence of wakeups. */
  method FeedAll(reader: Reader, ghost ps: seq<Payload>, chunks: seq<seq<Byte>>) returns (msgs: seq<Payload>, done: bool)
    requires reader.Valid(ps) && Incomplete(ps, reader.Where()) && IsNext(ps, reader.Where(), Flatten(chunks))
    modifies reader, reader.buffer
    ensures old(reader.count) <= reader.count <= |ps| && msgs == ps[old(reader.count)..reader.count]
    ensures done ==> reader.count == |ps| && |Stream(ps)| <= old(reader.taken) + |Flatten(chunks)|
    ensures !done ==> reader.Valid(ps) && Incomplete(ps, reader.Where()) && reader.taken == old(reader.taken) + |Flatten(chunks)|
    decreases |chunks|
  {
    if chunks == [] {
      return [], false;
    }
    ghost var at := reader.Where();
    FlattenNext(ps, at, chunks);
    msgs, done := Feed(reader, ps, chunks[0]);
    if !done {
      NextElsewhere(ps, at.(taken := at.taken + |chunks[0]|), reader.Where(), Flatten(chunks[1..]));
      var more;
      more, done := FeedAll(reader, ps, chunks[1..]);
      msgs := msgs + more;
    }
  }

  /** However the stream is cut, the messages delivered are the payloads complete in the bytes received. */
  method ReadChunks(ghost ps: seq<Payload>, chunks: seq<seq<Byte>>) returns (msgs: seq<Payload>)
    requires Sendable(ps) && IsNext(ps, Place(0, false, 0), Flatten(chunks))
    ensures Delivered(ps, |Flatten(chunks)|, |msgs|) && msgs == ps[..|msgs|]
  {
    var reader := new Reader(ps);
    NothingBetween(ps, reader.Where());
    var done;
    msgs, done := FeedAll(reader, ps, chunks);
    if done {
      DoneAt(ps);
    } else {
      AllDelivered(ps, reader.Where(), reader.buffer[reader.readBytes..reader.recvBytes]);
    }
  }

  lemma AllDelivered(ps: seq<Payload>, at: Place, unread: seq<Byte>)
    requires Unread(ps, at, unread) && Incomplete(ps, at)
    ensures Delivered(ps, at.taken, at.count)
  {
  }

  /** Two ways of cutting the same bytes deliver the same messages. */
  method ChunkingIndependent(ghost ps: seq<Payload>, chunks: seq<seq<Byte>>, chunks': seq<seq<Byte>>)
    returns (msgs: seq<Payload>, msgs': seq<Payload>)
    requires Sendable(ps) && IsNext(ps, Place(0, false, 0), Flatten(chunks)) && Flatten(chunks) == Flatten(chunks')
    ensures msgs == msgs'
  {
    msgs := ReadChunks(ps, chunks);
    msgs' := ReadChunks(ps, chunks');
    CountIsUnique(ps, |Flatten(chunks)|, |msgs|, |msgs'|);
  }

  lemma NothingBetween(ps: seq<Payload>, at: Place)
    requires Unread(ps, at, []) && !at.inMessage
    ensures Incomplete(ps, at)
  {
    if at.count < |ps| {
      MessageAt(ps, at.count);
    }
  }

  /** memcpy of chunk to position at. */
  method CopyTo(buffer: array<Byte>, at: nat, chunk: seq<Byte>, ghost from: nat)
    requires from <= at && at + |chunk| <= buffer.Length
    modifies buffer
    ensures buffer[from..at + |chunk|] == old(buffer[from..at]) + chunk
  {
    for i := 0 to |chunk|
      invariant buffer[from..at + i] == old(buffer[from..at]) + chunk[..i]
    {
      buffer[at + i] := chunk[i];
      assert buffer[from..at + i + 1] == buffer[from..at + i] + [chunk[i]];
    }
  }

  /** memmove of n bytes to the beginning. */
  method MoveLeft(buffer: array<Byte>, from: nat, n: nat)
    requires from + n <= buffer.Length
    modifies buffer
    ensures buffer[0..n] == old(buffer[from..from + n])
  {
    for i := 0 to n
      invariant buffer[0..i] == old(buffer[from..from + i]) && buffer[from + i..] == old(buffer[from + i..])
    {
      assert buffer[from + i..][0] == old(buffer[from + i..])[0] && buffer[from + i..][1..] == buffer[from + i + 1..];
      buffer[i] := buffer[from + i];
    }
  }
}
