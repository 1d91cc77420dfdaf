/** A byte queue on a ring buffer whose memory is mirrored, so that readable and
    writable parts are always contiguous, and the reader of pipelined HTTP
    responses built on it. */
module Turbofetch {
  import opened Wrappers

  // ----------------------------------------------------------- power-of-two masking

  function Pow2(k: nat): (r: nat)
    ensures r > 0
  {
    if k == 0 then 1 else 2 * Pow2(k - 1)
  }

  /** Bitwise and. */
  function And(a: nat, b: nat): nat {
    if a == 0 || b == 0 then 0
    else (if a % 2 == 1 && b % 2 == 1 then 1 else 0) + 2 * And(a / 2, b / 2)
  }

  /** One bit of masking with a number whose bits are all set. */
  lemma MaskBit(x: nat, m: nat)
    requires m > 0
    ensures And(x, 2 * m - 1) == x % 2 + 2 * And(x / 2, m - 1)
  {
    assert (2 * m - 1) / 2 == m - 1 && (2 * m - 1) % 2 == 1;
    if x == 0 { assert And(0, m - 1) == 0; }
  }

  /** Masking with `capacity - 1` brings an index back into the first mirror. */
  lemma {:induction false} MaskWraps(x: nat, k: nat)
    requires x < 2 * Pow2(k)
    ensures And(x, Pow2(k) - 1) == if x < Pow2(k) then x else x - Pow2(k)
    decreases k
  {
    if k > 0 {
      MaskBit(x, Pow2(k - 1));
      MaskWraps(x / 2, k - 1);
      assert x == x % 2 + 2 * (x / 2);
    }
  }

  // --------------------------------------------------------------------- the buffer

  function Wrap(i: nat, cap: nat): nat
    requires i < 2 * cap
  {
    if i < cap then i else i - cap
  }

  /** `len` bytes from `head` on, in memory that repeats itself. */
  function Mirrored(mem: seq<byte>, head: nat, len: nat): (s: seq<byte>)
    requires head < |mem| && len <= |mem|
    ensures |s| == len && forall i {:trigger s[i]} :: 0 <= i < len ==> s[i] == mem[Wrap(head + i, |mem|)]
  {
    seq(len, i requires 0 <= i < len => mem[Wrap(head + i, |mem|)])
  }

  lemma MirroredDrop(mem: seq<byte>, head: nat, len: nat, n: nat)
    requires head < |mem| && n <= len < |mem|
    ensures Wrap(head + n, |mem|) < |mem|
    ensures Mirrored(mem, Wrap(head + n, |mem|), len - n) == Mirrored(mem, head, len)[n..]
  {
    var a, b := Mirrored(mem, Wrap(head + n, |mem|), len - n), Mirrored(mem, head, len);
    forall i | 0 <= i < len - n ensures a[i] == b[n + i] {
    }
  }

  /** The first `n` bytes of `part` are in the ring from `at` on. */
  ghost predicate RingHolds(mem: seq<byte>, at: nat, part: seq<byte>, n: nat) {
    && at < |mem| && n <= |part| <= |mem|
    && forall j {:trigger part[j]} :: 0 <= j < n ==> mem[Wrap(at + j, |mem|)] == part[j]
  }

  /** One byte into the space behind the queue. */
  lemma RingWrite(mem: seq<byte>, head: nat, tail: nat, queue: seq<byte>, bytes: seq<byte>, i: nat)
    requires RingHolds(mem, head, queue, |queue|) && RingHolds(mem, tail, bytes, i) && i < |bytes|
    requires tail == Wrap(head + |queue|, |mem|) && |queue| + |bytes| < |mem|
    ensures var mem' := mem[Wrap(tail + i, |mem|) := bytes[i]];
            RingHolds(mem', head, queue, |queue|) && RingHolds(mem', tail, bytes, i + 1)
  {
  }

  class Buffer {
    const mem: array<byte>
    ghost const bits: nat
    var head: nat
    var tail: nat

    ghost predicate Valid()
      reads this
    {
      mem.Length == Pow2(bits) && head < mem.Length && tail < mem.Length
    }

    function Len(): nat
      requires Valid()
      reads this
    {
      if head <= tail then tail - head else tail + mem.Length - head
    }

    function SpaceLen(): nat
      requires Valid()
      reads this
    {
      if head <= tail then head + mem.Length - 1 - tail else head - 1 - tail
    }

    /** The queue, oldest byte first. */
    ghost function Contents(): (s: seq<byte>)
      requires Valid()
      reads this, mem
      ensures |s| == Len()
      ensures forall i {:trigger s[i]} :: 0 <= i < |s| ==> s[i] == mem[Wrap(head + i, mem.Length)]
    {
      Mirrored(mem[..], head, Len())
    }

    constructor (ghost k: nat, capacity: nat)
      requires capacity == Pow2(k)
      ensures Valid() && mem.Length == capacity && Contents() == [] && fresh(mem)
    {
      mem := new byte[capacity];
      bits := k;
      head, tail := 0, 0;
    }

    /** The readable slice: indices may run into the second mirror. */
    method Data() returns (data: seq<byte>)
      requires Valid()
      ensures data == Contents()
    {
      data := [];
      var i := head;
      var end := if head <= tail then tail else tail + mem.Length;
      while i < end
        invariant head <= i <= end && |data| == i - head
        invariant forall j :: 0 <= j < |data| ==> data[j] == Contents()[j]
      {
        data := data + [mem[Wrap(i, mem.Length)]];
        i := i + 1;
      }
    }

    method Consume(n: nat)
      requires Valid() && n <= Len()
      modifies this`head
      ensures Valid() && Contents() == old(Contents())[n..]
    {
      MaskWraps(head + n, bits);
      MirroredDrop(mem[..], head, Len(), n);
      head := And(head + n, mem.Length - 1);
    }

    /** Writing through `space()`: never touches a readable byte. */
    method Write(bytes: seq<byte>)
      requires Valid() && |bytes| <= SpaceLen()
      modifies mem
      ensures Contents() == old(Contents()) && Written(bytes)
    {
      ghost var before := Contents();
      for i := 0 to |bytes|
        invariant RingHolds(mem[..], head, before, |before|) && RingHolds(mem[..], tail, bytes, i)
      {
        RingWrite(mem[..], head, tail, before, bytes, i);
        mem[Wrap(tail + i, mem.Length)] := bytes[i];
      }
    }

    ghost predicate Written(bytes: seq<byte>)
      requires Valid()
      reads this, mem
    {
      && |bytes| <= SpaceLen()
      && forall j {:trigger bytes[j]} :: 0 <= j < |bytes| ==> mem[Wrap(tail + j, mem.Length)] == bytes[j]
    }

    method Commit(n: nat, ghost bytes: seq<byte>)
      requires Valid() && n == |bytes| && Written(bytes)
      modifies this`tail
      ensures Valid() && Contents() == old(Contents()) + bytes
    {
      ghost var before := Contents();
      MaskWraps(tail + n, bits);
      tail := And(tail + n, mem.Length - 1);
      assert Len() == |before| + n;
      forall i | 0 <= i < Len() ensures Contents()[i] == (before + bytes)[i] {
        if i >= |before| {
          assert bytes[i - |before|] == mem[Wrap(head + i, mem.Length)];
        }
      }
    }
  }

  /** The documented size law: the queue can hold all but one byte. */
  lemma SizeLaw(b: Buffer)
    requires b.Valid()
    ensures b.Len() + b.SpaceLen() + 1 == b.mem.Length
  {
  }

  // ------------------------------------------------------------------------ parsing

  datatype Header = Header(name: string, value: seq<byte>)

  datatype Status =
    | Partial
    | Complete(n: nat, code: nat, headers: seq<Header>)
    | Malformed

  /** The HTTP parser and the parser of decimal numbers. */
  datatype Http = Http(parse: seq<byte> -> Status, number: seq<byte> -> Option<nat>)

  datatype IoError = OutOfMemory | UnexpectedEof | InvalidData | Other(code: nat)

  datatype Result<T> = Ok(value: T) | Err(error: IoError)

  /** The first of the two headers that matter decides. */
  function ContentLength(http: Http, headers: seq<Header>): Result<nat> {
    if headers == [] then Err(InvalidData)
    else if headers[0].name == "Transfer-Encoding" then Err(InvalidData)
    else if headers[0].name == "Content-Length" then
      match http.number(headers[0].value)
      case Some(n) => Ok(n)
      case None => Err(InvalidData)
    else ContentLength(http, headers[1..])
  }

  /** Headers other than these two are passed over. */
  predicate Relevant(h: Header) {
    h.name == "Transfer-Encoding" || h.name == "Content-Length"
  }

  /** What a relevant header says. */
  function Decision(http: Http, h: Header): Result<nat> {
    if h.name == "Transfer-Encoding" || http.number(h.value).None? then Err(InvalidData)
    else Ok(http.number(h.value).value)
  }

  /** The first relevant header decides, wherever it is. */
  lemma {:induction false} FirstDecides(http: Http, headers: seq<Header>, i: nat)
    requires i < |headers| && Relevant(headers[i]) && forall j :: 0 <= j < i ==> !Relevant(headers[j])
    ensures ContentLength(http, headers) == Decision(http, headers[i])
  {
    if i > 0 {
      assert !Relevant(headers[0]);
      FirstDecides(http, headers[1..], i - 1);
    }
  }

  lemma {:induction false} NoneDecides(http: Http, headers: seq<Header>)
    requires forall j :: 0 <= j < |headers| ==> !Relevant(headers[j])
    ensures ContentLength(http, headers) == Err(InvalidData)
  {
    if headers != [] {
      assert !Relevant(headers[0]);
      NoneDecides(http, headers[1..]);
    }
  }

  method GetContentLength(http: Http, headers: seq<Header>) returns (r: Result<nat>)
    ensures r == ContentLength(http, headers)
  {
    var i := 0;
    while i < |headers|
      invariant 0 <= i <= |headers|
      invariant ContentLength(http, headers[i..]) == ContentLength(http, headers)
    {
      if headers[i].name == "Transfer-Encoding" {
        return Err(InvalidData);
      }
      if headers[i].name == "Content-Length" {
        match http.number(headers[i].value)
        case Some(n) => return Ok(n);
        case None => return Err(InvalidData);
      }
      assert headers[i..][1..] == headers[i + 1..];
      i := i + 1;
    }
    return Err(InvalidData);
  }

  /** How a stream begins: with a header block that has a status and a length (or lacks one),
      with bytes the parser rejects, or with less than a header block. */
  datatype Opening =
    | Head(bytes: seq<byte>, code: nat, length: Result<nat>)
    | Rejected(bytes: seq<byte>)
    | Unfinished
  {
    /** The parser waits for the last of the bytes, and then reports what they are
        whatever follows; it waits for more if there is no such byte in the stream. */
    ghost predicate Begins(http: Http, stream: seq<byte>) {
      if Unfinished? then
        forall d: seq<byte> {:trigger http.parse(d)} :: d <= stream ==> http.parse(d) == Partial
      else
        && bytes != [] && bytes <= stream
        && (forall d: seq<byte> {:trigger http.parse(d)} :: d < bytes ==> http.parse(d) == Partial)
        && (forall d: seq<byte> {:trigger http.parse(d)} :: bytes <= d ==> Reports(http, http.parse(d)))
    }

    ghost predicate Reports(http: Http, status: Status)
      requires !Unfinished?
    {
      if Rejected? then status == Malformed
      else
        && status.Complete? && status.n == |bytes| && status.code == code
        && ContentLength(http, status.headers) == length
    }
  }

  /** A response with a body of the announced length. */
  datatype Response = Response(head: seq<byte>, body: seq<byte>) {
    ghost predicate Parses(http: Http) {
      Head(head, 200, Ok(|body|)).Begins(http, head)
    }
  }

  // ------------------------------------------------------------------------- reading

  /** The peer: bytes still to come, and how many each read will deliver at most. */
  class Sock {
    var rest: seq<byte>
    var sizes: seq<nat>

    constructor (stream: seq<byte>, limits: seq<nat>)
      ensures rest == stream && sizes == limits
    {
      rest, sizes := stream, limits;
    }

    method Read(room: nat) returns (chunk: seq<byte>)
      requires room > 0
      modifies this
      ensures |chunk| <= room && old(rest) == chunk + rest
      ensures chunk == [] <==> old(rest) == []
    {
      var n := room;
      if sizes != [] {
        n := if 0 < sizes[0] < room then sizes[0] else room;
        sizes := sizes[1..];
      }
      n := if n < |rest| then n else |rest|;
      chunk := rest[..n];
      rest := rest[n..];
    }
  }

  /** `slurp`: moves bytes from the socket to the queue. */
  method Slurp(b: Buffer, sock: Sock) returns (r: Result<()>)
    requires b.Valid()
    modifies b`tail, b.mem, sock
    ensures b.Valid() && b.Contents() + sock.rest == old(b.Contents() + sock.rest)
    ensures r.Ok? ==> |sock.rest| < |old(sock.rest)|
    ensures r == Err(OutOfMemory) <==> old(b.Len()) == b.mem.Length - 1
    ensures r == Err(UnexpectedEof) <==> old(b.Len()) < b.mem.Length - 1 && old(sock.rest) == []
    ensures r.Err? ==> r.error in {OutOfMemory, UnexpectedEof}
  {
    if b.SpaceLen() == 0 {
      return Err(OutOfMemory);
    }
    ghost var queued := b.Contents();
    var chunk := sock.Read(b.SpaceLen());
    if chunk == [] {
      return Err(UnexpectedEof);
    }
    b.Write(chunk);
    b.Commit(|chunk|, chunk);
    assert queued + chunk + sock.rest == queued + (chunk + sock.rest);
    return Ok(());
  }

  /** What is queued is a prefix of what is to come. */
  lemma QueuedPrefix(data: seq<byte>, rest: seq<byte>, part: seq<byte>, more: seq<byte>)
    requires data + rest == part + more
    ensures |data| < |part| ==> data < part && rest != []
    ensures |data| >= |part| ==> part <= data && data[|part|..] + rest == more
  {
    if |data| < |part| {
      assert data == (part + more)[..|data|] == part[..|data|];
    } else {
      assert part == (data + rest)[..|part|] == data[..|part|];
      assert more == (data + rest)[|part|..] == data[|part|..] + rest;
    }
  }

  /** What the beginning of a stream leads to: the length of a body, or an error. */
  function OpeningAnswer(opening: Opening, stream: seq<byte>, capacity: nat): Result<nat> {
    match opening
    case Unfinished => if |stream| + 1 >= capacity then Err(OutOfMemory) else Err(UnexpectedEof)
    case Rejected(bytes) => if |bytes| >= capacity then Err(OutOfMemory) else Err(InvalidData)
    case Head(bytes, code, length) =>
      if |bytes| >= capacity then Err(OutOfMemory) else if code != 200 then Err(Other(code)) else length
  }

  /** What the parser says to the part received so far. */
  lemma Received(http: Http, opening: Opening, stream: seq<byte>, data: seq<byte>, rest: seq<byte>)
    requires opening.Begins(http, stream) && data + rest == stream
    ensures opening.Unfinished? || |data| < |opening.bytes| ==> http.parse(data) == Partial
    ensures !opening.Unfinished? && |data| < |opening.bytes| ==> rest != []
    ensures !opening.Unfinished? && |data| >= |opening.bytes| ==>
              && opening.Reports(http, http.parse(data))
              && data[|opening.bytes|..] + rest == stream[|opening.bytes|..]
  {
    assert data <= stream;
    if !opening.Unfinished? {
      QueuedPrefix(data, rest, opening.bytes, stream[|opening.bytes|..]);
    }
  }

  /** Reads until the header block is complete, and consumes it. */
  method ReadHead(http: Http, sock: Sock, b: Buffer, ghost opening: Opening, ghost stream: seq<byte>)
    returns (r: Result<nat>)
    requires b.Valid() && opening.Begins(http, stream)
    requires b.Contents() + sock.rest == stream
    modifies b, b.mem, sock
    ensures b.Valid()
    ensures r == OpeningAnswer(opening, stream, b.mem.Length)
    ensures r.Ok? ==> b.Contents() + sock.rest == stream[|opening.bytes|..]
  {
    while true
      invariant b.Valid() && b.Contents() + sock.rest == stream
      decreases |sock.rest|
    {
      var data := b.Data();
      Received(http, opening, stream, data, sock.rest);
      var status := http.parse(data);
      match status
      case Malformed => return Err(InvalidData);
      case Complete(n, code, headers) =>
        b.Consume(n);
        if code != 200 {
          return Err(Other(code));
        }
        r := GetContentLength(http, headers);
        return;
      case Partial =>
        var s := Slurp(b, sock);
        if s.Err? {
          return Err(s.error);
        }
    }
  }

  /** Reads until `len` bytes are queued, and consumes them; fails if the stream
      ends before. */
  method ReadBody(sock: Sock, b: Buffer, len: nat) returns (r: Result<seq<byte>>)
    requires b.Valid() && len < b.mem.Length
    modifies b, b.mem, sock
    ensures b.Valid()
    ensures var all := old(b.Contents() + sock.rest);
            if len <= |all| then r == Ok(all[..len]) && b.Contents() + sock.rest == all[len..]
            else r == Err(UnexpectedEof)
  {
    ghost var all := b.Contents() + sock.rest;
    while b.Len() < len
      invariant b.Valid() && b.Contents() + sock.rest == all
      decreases |sock.rest|
    {
      var s := Slurp(b, sock);
      if s.Err? {
        return Err(s.error);
      }
    }
    var data := b.Data();
    ghost var rest := sock.rest;
    assert all[..len] == data[..len] && all[len..] == data[len..] + rest;
    b.Consume(len);
    return Ok(data[..len]);
  }

  /** What a call returns for a stream. */
  function Answer(opening: Opening, stream: seq<byte>, capacity: nat): Result<seq<byte>> {
    match OpeningAnswer(opening, stream, capacity)
    case Err(e) => Err(e)
    case Ok(len) =>
      if len >= capacity then Err(OutOfMemory)
      else if opening.Head? && |opening.bytes| + len <= |stream| then
        Ok(stream[|opening.bytes|..|opening.bytes| + len])
      else Err(UnexpectedEof)
  }

  /** `parse_response`: a rejected header block, a stream that ends within one, another status
      than 200, a bad length, something that does not fit and a body cut short are errors;
      otherwise the body is returned and exactly what follows it is left. */
  method ParseResponse(http: Http, sock: Sock, b: Buffer, ghost opening: Opening, ghost stream: seq<byte>)
    returns (r: Result<seq<byte>>)
    requires b.Valid() && opening.Begins(http, stream)
    requires b.Contents() + sock.rest == stream
    modifies b, b.mem, sock
    ensures b.Valid()
    ensures r == Answer(opening, stream, b.mem.Length)
    ensures r.Ok? ==> b.Contents() + sock.rest == stream[|opening.bytes| + |r.value|..]
  {
    var len := ReadHead(http, sock, b, opening, stream);
    if len.Err? {
      return Err(len.error);
    }
    SizeLaw(b);
    var bufLen := b.SpaceLen() + b.Len();
    if len.value > bufLen {
      return Err(OutOfMemory);
    }
    r := ReadBody(sock, b, len.value);
    BodyOf(stream, |opening.bytes|, len.value);
  }

  lemma BodyOf(stream: seq<byte>, at: nat, len: nat)
    requires at <= |stream|
    ensures len <= |stream[at..]| <==> at + len <= |stream|
    ensures at + len <= |stream| ==>
              stream[at..][..len] == stream[at..at + len] && stream[at..][len..] == stream[at + len..]
  {
  }

  /** The bytes of a pipelined stream. */
  ghost function Stream(responses: seq<Response>, more: seq<byte>): seq<byte> {
    if responses == [] then more
    else responses[0].head + (responses[0].body + Stream(responses[1..], more))
  }

  lemma ResponseBegins(http: Http, resp: Response, next: seq<byte>) returns (opening: Opening)
    requires resp.Parses(http)
    ensures opening == Head(resp.head, 200, Ok(|resp.body|))
    ensures opening.Begins(http, resp.head + (resp.body + next))
    ensures var stream := resp.head + (resp.body + next);
            var end := |resp.head| + |resp.body|;
            stream[|resp.head|..end] == resp.body && stream[end..] == next
  {
    opening := Head(resp.head, 200, Ok(|resp.body|));
  }

  /** Successive calls return the bodies in order, however the stream is chunked. */
  method ReadAll(http: Http, sock: Sock, b: Buffer, count: nat, ghost responses: seq<Response>, ghost more: seq<byte>)
    returns (bodies: seq<seq<byte>>)
    requires b.Valid() && count == |responses|
    requires forall i :: 0 <= i < |responses| ==>
               && responses[i].Parses(http)
               && |responses[i].head| < b.mem.Length && |responses[i].body| < b.mem.Length
    requires b.Contents() + sock.rest == Stream(responses, more)
    modifies b, b.mem, sock
    ensures b.Valid() && b.Contents() + sock.rest == more
    ensures |bodies| == count && forall i :: 0 <= i < count ==> bodies[i] == responses[i].body
  {
    bodies := [];
    var n := 0;
    assert responses[0..] == responses;
    while n < count
      invariant 0 <= n <= count && |bodies| == n && b.Valid()
      invariant forall i :: 0 <= i < n ==> bodies[i] == responses[i].body
      invariant b.Contents() + sock.rest == Stream(responses[n..], more)
    {
      assert responses[n..][1..] == responses[n + 1..];
      ghost var next := Stream(responses[n + 1..], more);
      ghost var opening := ResponseBegins(http, responses[n], next);
      var r := ParseResponse(http, sock, b, opening, responses[n].head + (responses[n].body + next));
      bodies := bodies + [r.value];
      n := n + 1;
    }
  }
}
