/**
 The authenticated chunk stream of a portable backup: a writer with a buffer and a
 counter nonce, and the decoder that must accept its output and nothing else.

 A record is [type] + big-endian length + ciphertext. Type 1 carries up to one chunk
 of payload, type 2 is the empty mandatory final record.
 */
module ChunkStream {
  import opened Base

  newtype byte = x: int | 0 <= x < 256

  const CHUNK: nat := 0x10_0000
  const OVERHEAD: nat := 16
  const MAX_PLAIN: nat := 0x1000_0000        // 256 MiB
  const MAX_FILE: nat := 0x12C0_0000         // 300 MiB
  const MAX_HEADER: nat := 0x2000
  const TWO32: nat := 0x1_0000_0000
  const LAST: nat := TWO32 - 1

  // ----- integers on the wire -----

  function Be32(n: nat): (b: seq<byte>)
    requires n < TWO32
    ensures |b| == 4 && FromBe32(b) == n
  {
    var n1 := n / 256;
    var n2 := n1 / 256;
    [(n2 / 256) as byte, (n2 % 256) as byte, (n1 % 256) as byte, (n % 256) as byte]
  }

  function FromBe32(b: seq<byte>): (n: nat)
    requires |b| == 4
    ensures n < TWO32
  {
    ((b[0] as nat * 256 + b[1] as nat) * 256 + b[2] as nat) * 256 + b[3] as nat
  }

  lemma Be32Inverts(b: seq<byte>)
    requires |b| == 4
    ensures Be32(FromBe32(b)) == b
  {
    var n2 := b[0] as nat * 256 + b[1] as nat;
    var n1 := n2 * 256 + b[2] as nat;
    assert FromBe32(b) / 256 == n1 && n1 / 256 == n2;
  }

  // ----- the cipher -----

  /** What the header and the passphrase determine: AES-GCM under the derived key, the
      nonce prefix and the SHA-256 of magic, length and header. */
  datatype Suite = Suite(
    seal: (seq<byte>, seq<byte>, seq<byte>) -> seq<byte>,
    open: (seq<byte>, seq<byte>, seq<byte>) -> Option<seq<byte>>,
    noncePrefix: seq<byte>,
    headerHash: seq<byte>)

  function Nonce(s: Suite, index: nat): seq<byte> requires index < TWO32 {
    s.noncePrefix + Be32(index)
  }

  function Aad(s: Suite, kind: byte, index: nat): seq<byte> requires index < TWO32 {
    s.headerHash + [kind] + Be32(index)
  }

  datatype Sealed = Sealed(index: nat, kind: byte, plain: seq<byte>)

  /** A ciphertext is the plaintext and the tag. */
  ghost predicate Sized(s: Suite) {
    forall n, a, p :: |s.seal(n, a, p)| == |p| + OVERHEAD
  }

  /** Opening inverts sealing, whatever is sealed. */
  ghost predicate Correct(s: Suite) {
    Sized(s) && forall n, a, p :: s.open(n, a, s.seal(n, a, p)) == Some(p)
  }

  /** Opening inverts sealing on what was sealed, and nothing else opens under this key. */
  ghost predicate Ideal(s: Suite, log: set<Sealed>) {
    Sized(s) && forall n, a, c, p :: OpensTo(s, n, a, c, p) <==> WasSealed(s, log, n, a, c, p)
  }

  ghost predicate OpensTo(s: Suite, n: seq<byte>, a: seq<byte>, c: seq<byte>, p: seq<byte>) {
    s.open(n, a, c) == Some(p)
  }

  ghost predicate WasSealed(s: Suite, log: set<Sealed>, n: seq<byte>, a: seq<byte>, c: seq<byte>, p: seq<byte>) {
    exists x :: x in log && x.index < TWO32 && n == Nonce(s, x.index) && a == Aad(s, x.kind, x.index)
      && c == s.seal(n, a, x.plain) && p == x.plain
  }

  function Tag(): (t: seq<byte>)
    ensures |t| == OVERHEAD
  {
    seq(OVERHEAD, _ => 0)
  }

  /** x is what was sealed into c under this nonce and associated data, by appending the tag. */
  ghost predicate Tagged(x: Sealed, noncePrefix: seq<byte>, headerHash: seq<byte>, n: seq<byte>, a: seq<byte>,
      c: seq<byte>) {
    x.index < TWO32 && n == noncePrefix + Be32(x.index) && a == headerHash + [x.kind] + Be32(x.index)
      && c == x.plain + Tag()
  }

  ghost function Untag(log: set<Sealed>, noncePrefix: seq<byte>, headerHash: seq<byte>, n: seq<byte>, a: seq<byte>,
      c: seq<byte>): Option<seq<byte>> {
    if |c| >= OVERHEAD && exists x :: x in log && Tagged(x, noncePrefix, headerHash, n, a, c) then
      Some(c[..|c| - OVERHEAD]) else None
  }

  /** A cipher that opens exactly what is in the log. */
  ghost function LogSuite(log: set<Sealed>, noncePrefix: seq<byte>, headerHash: seq<byte>): Suite {
    Suite((n, a, p) => p + Tag(), (n, a, c) => Untag(log, noncePrefix, headerHash, n, a, c), noncePrefix, headerHash)
  }

  /** So the hypothesis can be met, whatever was sealed. */
  lemma LogSuiteIsIdeal(log: set<Sealed>, noncePrefix: seq<byte>, headerHash: seq<byte>)
    ensures Ideal(LogSuite(log, noncePrefix, headerHash), log)
  {}

  // ----- the stream, as a function of the payload alone -----

  function Record(s: Suite, x: Sealed): (r: seq<byte>)
    requires x.index < TWO32 && |x.plain| <= CHUNK && Sized(s)
    ensures |r| == 5 + |x.plain| + OVERHEAD
  {
    var c := s.seal(Nonce(s, x.index), Aad(s, x.kind, x.index), x.plain);
    [x.kind] + Be32(|c|) + c
  }

  /** The record that position `i` of the stream of `content` holds. */
  function At(content: seq<byte>, i: nat): Sealed {
    var rest := Tail(content, i);
    if rest == [] then Sealed(i, 2, []) else Sealed(i, 1, Head(rest))
  }

  function Tail(content: seq<byte>, i: nat): seq<byte> {
    if i * CHUNK < |content| then content[i * CHUNK..] else []
  }

  function Head(rest: seq<byte>): (h: seq<byte>)
    ensures |h| <= CHUNK && h <= rest
  {
    if |rest| < CHUNK then rest else rest[..CHUNK]
  }

  /** Records from position `i` on, for the payload that is still to come. */
  function Encode(s: Suite, rest: seq<byte>, i: nat): (stream: seq<byte>)
    requires Sized(s) && i + |rest| < LAST
    decreases |rest|
  {
    if rest == [] then Record(s, Sealed(i, 2, []))
    else Record(s, Sealed(i, 1, Head(rest))) + Encode(s, rest[|Head(rest)|..], i + 1)
  }

  /** The first `n` records of a stream whose first `n` chunks are full. */
  function Full(s: Suite, content: seq<byte>, n: nat): (stream: seq<byte>)
    requires Sized(s) && n * CHUNK <= |content| && n <= LAST
  {
    if n == 0 then [] else Full(s, content, n - 1) + Record(s, Sealed(n - 1, 1, content[(n - 1) * CHUNK..n * CHUNK]))
  }

  lemma {:induction false} FullThenRest(s: Suite, content: seq<byte>, n: nat)
    requires Sized(s) && |content| < LAST && n * CHUNK <= |content|
    ensures Encode(s, content, 0) == Full(s, content, n) + Encode(s, content[n * CHUNK..], n)
  {
    hide Record;
    if n == 0 {
      assert content[0..] == content;
    } else {
      FullThenRest(s, content, n - 1);
      var rest := content[(n - 1) * CHUNK..];
      assert Head(rest) == content[(n - 1) * CHUNK..n * CHUNK];
      assert rest[CHUNK..] == content[n * CHUNK..];
    }
  }

  lemma {:induction false} FullIgnoresMore(s: Suite, content: seq<byte>, more: seq<byte>, n: nat)
    requires Sized(s) && n * CHUNK <= |content| && n <= LAST
    ensures Full(s, content, n) == Full(s, content + more, n)
  {
    hide Record;
    if n > 0 {
      FullIgnoresMore(s, content, more, n - 1);
      assert content[(n - 1) * CHUNK..n * CHUNK] == (content + more)[(n - 1) * CHUNK..n * CHUNK];
    }
  }

  function Chunks(n: nat): (k: nat)
    ensures (k - 1) * CHUNK < n <= k * CHUNK || (n == 0 && k == 0)
  {
    if n == 0 then 0 else if n <= CHUNK then 1 else Chunks(n - CHUNK) + 1
  }

  /** The size a stream has: one overhead per chunk and one for the final record. */
  lemma {:induction false} EncodedSize(s: Suite, rest: seq<byte>, i: nat)
    requires Sized(s) && i + |rest| < LAST
    ensures |Encode(s, rest, i)| == |rest| + (5 + OVERHEAD) * (Chunks(|rest|) + 1)
    decreases |rest|
  {
    hide Record;
    if rest != [] {
      EncodedSize(s, rest[|Head(rest)|..], i + 1);
    }
  }

  lemma StreamFits(s: Suite, prefix: seq<byte>, payload: seq<byte>)
    requires Sized(s) && |payload| <= MAX_PLAIN && |prefix| <= 20 + MAX_HEADER
    ensures |prefix + Encode(s, payload, 0)| <= MAX_FILE
  {
    EncodedSize(s, payload, 0);
  }

  // ----- the decoder, as a function -----

  /** One record at the front of `rest`, opened under the nonce and associated data of `index`. */
  function Parse(s: Suite, rest: seq<byte>, index: nat): (r: Option<(Sealed, nat)>)
    requires index < TWO32
    ensures r.Some? ==> r.value.0.index == index && r.value.0.kind in {1, 2} && 5 <= r.value.1 <= |rest|
  {
    if |rest| < 5 then None else
    var kind, length := rest[0], FromBe32(rest[1..5]);
    if (kind != 1 && kind != 2) || length < OVERHEAD || length > CHUNK + OVERHEAD
      || (kind == 2 && length != OVERHEAD) then None
    else if |rest| < 5 + length then None
    else match s.open(Nonce(s, index), Aad(s, kind, index), rest[5..5 + length])
      case None => None
      case Some(plain) => Some((Sealed(index, kind, plain), 5 + length))
  }

  /** Reads records from position `index`; `total` payload bytes came before. */
  function Decode(s: Suite, rest: seq<byte>, index: nat, total: nat): Option<seq<byte>>
    requires index < TWO32
    decreases |rest|
  {
    match Parse(s, rest, index)
    case None => None
    case Some((x, length)) =>
      if x.kind == 2 then (if x.plain == [] && |rest| == length then Some([]) else None)
      else if x.plain == [] || total + |x.plain| > MAX_PLAIN || index >= LAST - 1 then None
      else match Decode(s, rest[length..], index + 1, total + |x.plain|)
           case None => None
           case Some(more) => Some(x.plain + more)
  }

  /** The record of position x.index opens to its plaintext. */
  ghost predicate Readable(s: Suite, x: Sealed) {
    x.index < TWO32 ==>
      var nonce, aad := Nonce(s, x.index), Aad(s, x.kind, x.index);
      s.open(nonce, aad, s.seal(nonce, aad, x.plain)) == Some(x.plain)
  }

  /** Position j of the stream of `content` holds a record. */
  predicate InStream(content: seq<byte>, j: nat) { j == 0 || (j - 1) * CHUNK < |content| }

  ghost predicate AllReadable(s: Suite, content: seq<byte>) {
    forall j: nat :: InStream(content, j) ==> Readable(s, At(content, j))
  }

  /** Every record of the stream has been sealed. */
  ghost predicate AllSealed(log: set<Sealed>, content: seq<byte>) {
    forall j: nat :: InStream(content, j) ==> At(content, j) in log
  }

  lemma CorrectReadsAll(s: Suite, content: seq<byte>)
    requires Correct(s)
    ensures AllReadable(s, content)
  {}

  lemma IdealReadsSealed(s: Suite, log: set<Sealed>, content: seq<byte>)
    requires Ideal(s, log) && AllSealed(log, content)
    ensures AllReadable(s, content)
  {
    hide At, InStream, Nonce, Aad;
    forall j: nat | InStream(content, j) ensures Readable(s, At(content, j)) {
      var x := At(content, j);
      if x.index < TWO32 {
        var n, a := Nonce(s, x.index), Aad(s, x.kind, x.index);
        assert WasSealed(s, log, n, a, s.seal(n, a, x.plain), x.plain);
        assert OpensTo(s, n, a, s.seal(n, a, x.plain), x.plain);
      }
    }
  }

  lemma ParseInvertsRecord(s: Suite, x: Sealed, more: seq<byte>)
    requires x.index < TWO32 && |x.plain| <= CHUNK && Sized(s) && Readable(s, x)
    requires (x.kind == 1 || (x.kind == 2 && x.plain == []))
    ensures Parse(s, Record(s, x) + more, x.index) == Some((x, |Record(s, x)|))
    ensures (Record(s, x) + more)[|Record(s, x)|..] == more
  {}

  /** Every stream whose records open decodes to its payload, from every position. */
  lemma {:induction false} DecodeInvertsEncode(s: Suite, content: seq<byte>, i: nat, total: nat)
    requires Sized(s) && AllReadable(s, content) && InStream(content, i)
    requires total + |Tail(content, i)| <= MAX_PLAIN && i <= total
    ensures Decode(s, Encode(s, Tail(content, i), i), i, total) == Some(Tail(content, i))
    decreases |Tail(content, i)|
  {
    hide Record, Parse, Head, At, Tail, Readable;
    TailStep(content, i);
    NextInStream(content, i);
    var x, rest := At(content, i), Tail(content, i);
    if rest == [] {
      ParseInvertsRecord(s, x, []);
      assert Record(s, x) + [] == Encode(s, rest, i);
    } else {
      assert rest[|Head(rest)|..] == Tail(content, i + 1);
      ParseInvertsRecord(s, x, Encode(s, Tail(content, i + 1), i + 1));
      DecodeInvertsEncode(s, content, i + 1, total + |x.plain|);
    }
  }

  lemma NextInStream(content: seq<byte>, i: nat)
    ensures Tail(content, i) != [] ==> InStream(content, i + 1)
  {}

  lemma AadIsInjective(s: Suite, k: byte, i: nat, k': byte, i': nat)
    requires i < TWO32 && i' < TWO32 && Aad(s, k, i) == Aad(s, k', i')
    ensures k == k' && i == i'
  {
    hide Be32, FromBe32;
    assert Aad(s, k, i)[|s.headerHash|] == k && Aad(s, k', i')[|s.headerHash|] == k';
    assert Aad(s, k, i)[|s.headerHash| + 1..] == Be32(i) && Aad(s, k', i')[|s.headerHash| + 1..] == Be32(i');
  }

  /** Under an ideal cipher a record that parses is, byte for byte, a record that was sealed for this position. */
  lemma ParsedWasSealed(s: Suite, log: set<Sealed>, rest: seq<byte>, i: nat)
    requires Ideal(s, log) && i < TWO32 && Parse(s, rest, i).Some?
    ensures var (x, length) := Parse(s, rest, i).value;
      x in log && |x.plain| <= CHUNK && rest[..length] == Record(s, x)
  {
    hide Be32, FromBe32, Nonce, Aad;
    var (y, length) := Parse(s, rest, i).value;
    var kind, c := rest[0], rest[5..length];
    var n, a := Nonce(s, i), Aad(s, kind, i);
    assert OpensTo(s, n, a, c, y.plain);
    var x :| x in log && x.index < TWO32 && n == Nonce(s, x.index) && a == Aad(s, x.kind, x.index)
      && c == s.seal(n, a, x.plain) && y.plain == x.plain;
    AadIsInjective(s, kind, i, x.kind, x.index);
    Be32Inverts(rest[1..5]);
    assert rest[..length] == [rest[0]] + rest[1..5] + c;
  }

  /** Everything that was sealed is the record of one and the same content. */
  predicate SealedFrom(log: set<Sealed>, content: seq<byte>) {
    forall x :: x in log ==> x == At(content, x.index)
  }

  lemma TailStep(content: seq<byte>, i: nat)
    ensures var x, tail := At(content, i), Tail(content, i);
      && x.index == i
      && (tail == [] ==> x == Sealed(i, 2, []))
      && (tail != [] ==> x == Sealed(i, 1, Head(tail)) && x.plain != [])
      && (tail != [] ==> tail[|x.plain|..] == Tail(content, i + 1) && tail == x.plain + Tail(content, i + 1))
  {
  }

  /** What one accepted record says about the rest of the stream. */
  lemma AcceptedStep(s: Suite, log: set<Sealed>, content: seq<byte>, rest: seq<byte>, i: nat, total: nat)
    requires Ideal(s, log) && SealedFrom(log, content) && i < TWO32
    requires Decode(s, rest, i, total).Some?
    ensures Sized(s) && |At(content, i).plain| <= CHUNK && Record(s, At(content, i)) <= rest
    ensures At(content, i).kind == 2 ==> rest == Record(s, At(content, i)) && Decode(s, rest, i, total) == Some([])
    ensures At(content, i).kind == 1 ==>
      && i + 1 < LAST
      && var more := Decode(s, rest[|Record(s, At(content, i))|..], i + 1, total + |At(content, i).plain|);
         more.Some? && Decode(s, rest, i, total) == Some(At(content, i).plain + more.value)
  {
    var (x, length) := Parse(s, rest, i).value;
    ParsedWasSealed(s, log, rest, i);
    hide Record, Parse, Ideal;
    assert x == At(content, i);
    assert rest[..length] == Record(s, x);
  }

  /** Under an ideal cipher the decoder accepts the stream of the sealed content and no other bytes:
      nothing truncated, reordered, spliced or appended. */
  lemma {:induction false} AcceptedIsAuthentic(s: Suite, log: set<Sealed>, content: seq<byte>, rest: seq<byte>, i: nat,
      total: nat)
    requires Ideal(s, log) && SealedFrom(log, content) && i + |Tail(content, i)| < LAST
    requires Decode(s, rest, i, total).Some?
    ensures Decode(s, rest, i, total) == Some(Tail(content, i))
    ensures rest == Encode(s, Tail(content, i), i)
    decreases |rest|
  {
    hide Record, Ideal, Correct, SealedFrom, Decode, Head, At, Tail;
    AcceptedStep(s, log, content, rest, i, total);
    TailStep(content, i);
    var x := At(content, i);
    if x.kind == 1 {
      var more := rest[|Record(s, x)|..];
      AcceptedIsAuthentic(s, log, content, more, i + 1, total + |x.plain|);
      assert rest == Record(s, x) + more;
    }
  }

  // ----- the writer -----

  class Writer {
    const suite: Suite
    const steady: bool                 // the destination does not fail
    const prefix: seq<byte>            // magic, header length, header
    var destination: seq<byte>
    var buffer: seq<byte>
    var index: nat
    var closed: bool
    ghost var content: seq<byte>       // payload bytes taken over so far
    ghost var log: set<Sealed>         // every call of the cipher
    ghost var intact: bool             // no destination write has failed

    ghost predicate Valid()
      reads this
    {
      && Sized(suite) && index <= LAST && |buffer| <= CHUNK
      && SealedFrom(log, content)
      && (!closed ==> |content| == index * CHUNK + |buffer| && content[index * CHUNK..] == buffer)
      && (!closed ==> FullChunks(log, content) && SealedBefore(log, content, index))
      && (!closed && intact ==> destination == prefix + Full(suite, content, index))
    }

    constructor (suite: Suite, prefix: seq<byte>, steady: bool)
      requires Sized(suite)
      ensures Valid() && this.suite == suite && this.prefix == prefix && this.steady == steady
      ensures content == [] && log == {} && intact && !closed && destination == prefix
    {
      this.suite, this.prefix, this.steady, destination := suite, prefix, steady, prefix;
      buffer, index, closed := [], 0, false;
      content, log, intact := [], {}, true;
    }

    /** The destination may fail after any number of bytes. */
    method Emit(bytes: seq<byte>) returns (ok: bool)
      modifies `destination, `intact
      ensures ok ==> destination == old(destination) + bytes && intact == old(intact)
      ensures !ok ==> !intact
      ensures steady ==> intact == old(intact)
    {
      var written: int := *;
      ok := steady || !(0 <= written < |bytes|);
      destination := destination + if ok then bytes else bytes[..written];
      intact := intact && ok;
    }

    /** Seals `plain` at the current index; the index advances only when both writes succeed. */
    method WriteRecord(kind: byte, plain: seq<byte>) returns (ok: bool)
      requires Sized(suite) && index <= LAST && |plain| <= CHUNK
      modifies `destination, `intact, `index, `log
      ensures log == if old(index) == LAST then old(log) else old(log) + {Sealed(old(index), kind, plain)}
      ensures index == if ok then old(index) + 1 else old(index)
      ensures ok ==> old(index) < LAST && intact == old(intact)
      ensures ok ==> destination == old(destination) + Record(suite, Sealed(old(index), kind, plain))
      ensures !ok && old(index) < LAST ==> !intact
      ensures !ok && old(index) == LAST ==> intact == old(intact) && destination == old(destination)
      ensures steady ==> intact == old(intact)
    {
      hide Be32, FromBe32;
      if index == LAST {
        return false;
      }
      log := log + {Sealed(index, kind, plain)};
      var ciphertext := suite.seal(Nonce(suite, index), Aad(suite, kind, index), plain);
      ok := Emit([kind] + Be32(|ciphertext|));
      if !ok {
        return;
      }
      ok := Emit(ciphertext);
      if !ok {
        return;
      }
      index := index + 1;
    }

    /** Buffers the payload and seals every full chunk. After a failed write the same full buffer is
        sealed again, under the same nonce, by the next call. */
    method Write(payload: seq<byte>) returns (n: nat, ok: bool)
      requires Valid()
      modifies this
      ensures Valid() && closed == old(closed) && old(log) <= log
      ensures n <= |payload| && content == old(content) + payload[..n]
      ensures closed ==> !ok && n == 0 && log == old(log)
      ensures ok ==> n == |payload| && intact == old(intact)
      ensures !ok && !closed ==> |buffer| == CHUNK && (!intact || index == LAST)
      ensures steady ==> intact == old(intact)
    {
      if closed {
        return 0, false;
      }
      n := 0;
      while n < |payload|
        invariant n <= |payload| && Valid() && !closed && old(log) <= log && intact == old(intact)
        invariant content == old(content) + payload[..n]
        decreases |payload| - n, |buffer|
      {
        var available := CHUNK - |buffer|;
        if available > |payload| - n {
          available := |payload| - n;
        }
        assert old(content) + payload[..n] + payload[n..n + available] == old(content) + payload[..n + available];
        Append(payload[n..n + available]);
        n := n + available;
        if |buffer| == CHUNK {
          var sent := Flush();
          if !sent {
            return n, false;
          }
        }
      }
      assert payload[..n] == payload;
      ok := true;
    }

    method Append(piece: seq<byte>)
      requires Valid() && !closed && |buffer| + |piece| <= CHUNK
      modifies `buffer, `content
      ensures Valid() && buffer == old(buffer) + piece && content == old(content) + piece
    {
      hide At, Full, Record, Sized, SealedFrom, FullChunks, SealedBefore;
      SealedGrows(log, content, piece, index);
      FullIgnoresMore(suite, content, piece, index);
      assert (content + piece)[index * CHUNK..] == buffer + piece;
      buffer := buffer + piece;
      content := content + piece;
    }

    /** Seals a full buffer. */
    method Flush() returns (ok: bool)
      requires Valid() && !closed && |buffer| == CHUNK
      modifies `destination, `intact, `index, `log, `buffer
      ensures Valid() && old(log) <= log
      ensures ok ==> buffer == [] && intact == old(intact)
      ensures !ok ==> buffer == old(buffer) && (!intact || index == LAST)
      ensures steady ==> intact == old(intact)
    {
      hide At, Record, Sized, SealedFrom, FullChunks, SealedBefore;
      AddFull(log, content, index, buffer);
      ok := WriteRecord(1, buffer);
      if ok {
        buffer := [];
      }
    }

    /** Seals what is left and the final record; a second call does nothing. */
    method Close() returns (ok: bool)
      requires Valid()
      modifies this
      ensures Valid() && closed && content == old(content) && old(log) <= log
      ensures old(closed) ==> ok && log == old(log) && destination == old(destination) && intact == old(intact)
      ensures !ok ==> !intact || index == LAST
      ensures !old(closed) && ok && intact && |content| < LAST ==> destination == prefix + Encode(suite, content, 0)
      ensures !old(closed) && ok ==> AllSealed(log, content) && intact == old(intact)
      ensures steady ==> intact == old(intact)
      ensures index <= old(index) + 2
    {
      hide Record, Sized, SealedFrom, FullChunks, At, Full, Encode, AllSealed, SealedBefore;
      if closed {
        return true;
      }
      closed := true;
      ghost var start, data := index, buffer;
      AddLast(log, content, start, data);
      ok := SealRest();
      if !ok {
        return;
      }
      ok := WriteRecord(2, []);
      if ok && intact && |content| < LAST {
        EncodeByParts(suite, content, start, data, prefix);
      }
    }

    method SealRest() returns (ok: bool)
      requires Sized(suite) && index <= LAST && |buffer| <= CHUNK
      modifies `destination, `intact, `index, `log, `buffer
      ensures |buffer| <= CHUNK && index <= LAST
      ensures log == if old(buffer) == [] || old(index) == LAST then old(log)
        else old(log) + {Sealed(old(index), 1, old(buffer))}
      ensures !ok ==> !intact || index == LAST
      ensures ok && old(buffer) == [] ==>
        index == old(index) && destination == old(destination) && intact == old(intact)
      ensures ok && old(buffer) != [] ==> old(index) < LAST && index == old(index) + 1 && intact == old(intact)
      ensures ok && old(buffer) != [] ==>
        destination == old(destination) + Record(suite, Sealed(old(index), 1, old(buffer)))
      ensures steady ==> intact == old(intact)
      ensures index <= old(index) + 1
    {
      hide Record, Sized;
      ok := true;
      if |buffer| != 0 {
        ok := WriteRecord(1, buffer);
        if !ok {
          return;
        }
      }
      buffer := [];
    }
  }

  /** Records of full chunks. */
  predicate FullChunks(log: set<Sealed>, content: seq<byte>) {
    forall x :: x in log ==> (x.index + 1) * CHUNK <= |content|
  }

  /** The first n records have been sealed. */
  predicate SealedBefore(log: set<Sealed>, content: seq<byte>, n: nat) {
    forall j :: 0 <= j < n ==> At(content, j) in log
  }

  lemma AtIgnoresMore(content: seq<byte>, more: seq<byte>, j: nat)
    requires (j + 1) * CHUNK <= |content|
    ensures At(content + more, j) == At(content, j) == Sealed(j, 1, content[j * CHUNK..(j + 1) * CHUNK])
  {}

  lemma SealedGrows(log: set<Sealed>, content: seq<byte>, more: seq<byte>, n: nat)
    requires SealedFrom(log, content) && FullChunks(log, content) && SealedBefore(log, content, n)
    requires n * CHUNK <= |content|
    ensures SealedFrom(log, content + more) && FullChunks(log, content + more) && SealedBefore(log, content + more, n)
  {
    hide At;
    forall x | x in log ensures x == At(content + more, x.index) { AtIgnoresMore(content, more, x.index); }
    forall j | 0 <= j < n ensures At(content + more, j) in log { AtIgnoresMore(content, more, j); }
  }

  lemma AddFull(log: set<Sealed>, content: seq<byte>, i: nat, data: seq<byte>)
    requires SealedFrom(log, content) && FullChunks(log, content) && SealedBefore(log, content, i)
    requires |content| == i * CHUNK + |data| && content[i * CHUNK..] == data && |data| == CHUNK
    ensures var more := log + {Sealed(i, 1, data)};
      SealedFrom(more, content) && FullChunks(more, content) && SealedBefore(more, content, i)
        && SealedBefore(more, content, i + 1)
    ensures data == content[i * CHUNK..(i + 1) * CHUNK] && content[(i + 1) * CHUNK..] == []
  {}

  lemma AddLast(log: set<Sealed>, content: seq<byte>, i: nat, data: seq<byte>)
    requires SealedFrom(log, content) && |data| <= CHUNK && SealedBefore(log, content, i)
    requires |content| == i * CHUNK + |data| && content[i * CHUNK..] == data
    ensures data != [] ==> AllSealed(log + {Sealed(i, 1, data)} + {Sealed(i + 1, 2, [])}, content)
    ensures data == [] ==> AllSealed(log + {Sealed(i, 2, [])}, content)
    ensures data != [] ==> SealedFrom(log + {Sealed(i, 1, data)}, content)
    ensures data != [] ==> SealedFrom(log + {Sealed(i, 1, data)} + {Sealed(i + 1, 2, [])}, content)
    ensures data == [] ==> SealedFrom(log + {Sealed(i, 2, [])}, content)
  {
    var more := if data != [] then log + {Sealed(i, 1, data)} + {Sealed(i + 1, 2, [])} else log + {Sealed(i, 2, [])};
    assert data != [] ==> At(content, i) == Sealed(i, 1, data) && At(content, i + 1) == Sealed(i + 1, 2, []);
    assert data == [] ==> At(content, i) == Sealed(i, 2, []);
    hide At;
    forall j: nat | InStream(content, j) ensures At(content, j) in more {
      assert j <= i + 1 && (data == [] ==> j <= i);
    }
  }

  lemma EncodeByParts(s: Suite, content: seq<byte>, i: nat, data: seq<byte>, prefix: seq<byte>)
    requires Sized(s) && |content| < LAST && |data| <= CHUNK
    requires |content| == i * CHUNK + |data| && content[i * CHUNK..] == data
    ensures data != [] ==>
      prefix + Encode(s, content, 0)
        == prefix + Full(s, content, i) + Record(s, Sealed(i, 1, data)) + Record(s, Sealed(i + 1, 2, []))
    ensures data == [] ==> prefix + Encode(s, content, 0) == prefix + Full(s, content, i) + Record(s, Sealed(i, 2, []))
  {
    hide Record, Full, Sized;
    FullThenRest(s, content, i);
    if data != [] {
      assert Head(data) == data && data[|data|..] == [];
      assert Encode(s, [], i + 1) == Record(s, Sealed(i + 1, 2, []));
    }
  }

  /** No nonce ever seals two different records. */
  lemma NonceNeverReused(s: Suite, log: set<Sealed>, content: seq<byte>, x: Sealed, y: Sealed)
    requires SealedFrom(log, content) && x in log && y in log && x.index < TWO32 && y.index < TWO32
    requires Nonce(s, x.index) == Nonce(s, y.index)
    ensures x == y
  {
    hide Be32, FromBe32;
    assert Nonce(s, x.index)[|s.noncePrefix|..] == Be32(x.index);
    assert Nonce(s, y.index)[|s.noncePrefix|..] == Be32(y.index);
  }

  // ----- whole files -----

  /** The header of an archive: its cipher and where the records begin. `derive` stands for the strict
      header decoding, the fixed profile and the key derivation. */
  function Header(file: seq<byte>, magic: seq<byte>, derive: seq<byte> -> Option<Suite>): (r: Option<(Suite, nat)>)
    requires |magic| == 16
    ensures r.Some? ==> 20 < r.value.1 <= |file|
  {
    if |file| <= 20 || |file| > MAX_FILE || file[..16] != magic then None else
    var length := FromBe32(file[16..20]);
    if length == 0 || length > MAX_HEADER || |file| < 20 + length then None
    else match derive(file[..20 + length])
      case None => None
      case Some(s) => Some((s, 20 + length))
  }

  function Decrypted(file: seq<byte>, magic: seq<byte>, derive: seq<byte> -> Option<Suite>): Option<seq<byte>>
    requires |magic| == 16
  {
    match Header(file, magic, derive)
    case None => None
    case Some((s, start)) =>
      var plain := Decode(s, file[start..], 0, 0);
      if plain == Some([]) then None else plain
  }

  /** The answer of the decoder that has already produced `out`. */
  function Continue(s: Suite, rest: seq<byte>, index: nat, out: seq<byte>): Option<seq<byte>>
    requires index < TWO32
  {
    match Decode(s, rest, index, |out|) case None => None case Some(more) => Some(out + more)
  }

  lemma ContinueStep(s: Suite, rest: seq<byte>, index: nat, out: seq<byte>)
    requires index < LAST
    ensures Parse(s, rest, index).None? ==> Continue(s, rest, index, out).None?
    ensures Parse(s, rest, index).Some? ==>
      var (x, length) := Parse(s, rest, index).value;
      if x.kind == 2 then Continue(s, rest, index, out) == if x.plain == [] && |rest| == length then Some(out) else None
      else if x.plain == [] || |out| + |x.plain| > MAX_PLAIN || index == LAST - 1 then
        Continue(s, rest, index, out).None?
      else Continue(s, rest, index, out) == Continue(s, rest[length..], index + 1, out + x.plain)
  {
    hide Parse;
    if Parse(s, rest, index).Some? {
      var (x, length) := Parse(s, rest, index).value;
      assert out + [] == out;
      if x.kind == 1 && |out| + |x.plain| <= MAX_PLAIN {
        var more := Decode(s, rest[length..], index + 1, |out| + |x.plain|);
        assert more.Some? ==> out + (x.plain + more.value) == out + x.plain + more.value;
      }
    }
  }

  method DecryptRecords(s: Suite, body: seq<byte>) returns (r: Option<seq<byte>>)
    ensures r == Continue(s, body, 0, [])
  {
    hide Parse, Continue;
    var rest, index, out: seq<byte> := body, 0, [];
    while true
      invariant index < LAST
      invariant Continue(s, body, 0, []) == Continue(s, rest, index, out)
      decreases |rest|
    {
      ContinueStep(s, rest, index, out);
      var record := Parse(s, rest, index);
      if record.None? {
        return None;
      }
      var (x, length) := record.value;
      if x.kind == 2 {
        return if x.plain == [] && |rest| == length then Some(out) else None;
      }
      if x.plain == [] || |out| + |x.plain| > MAX_PLAIN {
        return None;
      }
      out := out + x.plain;
      if index == LAST - 1 {
        return None;
      }
      rest, index := rest[length..], index + 1;
    }
  }

  method Decrypt(file: seq<byte>, magic: seq<byte>, derive: seq<byte> -> Option<Suite>) returns (r: Option<seq<byte>>)
    requires |magic| == 16
    ensures r == Decrypted(file, magic, derive)
  {
    var header := Header(file, magic, derive);
    if header.None? {
      return None;
    }
    var (s, start) := header.value;
    r := DecryptRecords(s, file[start..]);
    hide Decode, Header;
    ghost var plain := Decode(s, file[start..], 0, 0);
    assert plain.Some? ==> [] + plain.value == plain.value;
    if r == Some([]) {
      r := None;
    }
  }

  /** The archive of a payload: its header, then its stream. */
  predicate IsArchive(file: seq<byte>, magic: seq<byte>, header: seq<byte>, s: Suite, payload: seq<byte>)
    requires Sized(s) && |payload| < LAST && |header| < TWO32
  {
    file == magic + Be32(|header|) + header + Encode(s, payload, 0)
  }

  /** Every payload of 1 byte to 256 MiB survives the trip, inside the 300 MiB bound. */
  lemma ArchiveRoundTrip(file: seq<byte>, magic: seq<byte>, header: seq<byte>, derive: seq<byte> -> Option<Suite>,
      s: Suite, payload: seq<byte>)
    requires |magic| == 16 && 0 < |header| <= MAX_HEADER && Sized(s) && AllReadable(s, payload)
    requires derive(magic + Be32(|header|) + header) == Some(s)
    requires 1 <= |payload| <= MAX_PLAIN && IsArchive(file, magic, header, s, payload)
    ensures |file| <= MAX_FILE && Decrypted(file, magic, derive) == Some(payload)
  {
    hide Be32, FromBe32, Encode, Decode, AllReadable, Sized, Tail;
    var prefix := magic + Be32(|header|) + header;
    StreamFits(s, prefix, payload);
    TailOfNothing(payload);
    DecodeInvertsEncode(s, payload, 0, 0);
    PrefixParts(file, magic, header);
    assert file[20 + |header|..] == Encode(s, payload, 0);
  }

  /** Under an ideal cipher, a file with this header is accepted only if it is the archive of what was sealed,
      also when the writer stopped before the end. */
  lemma AcceptedIsArchive(file: seq<byte>, magic: seq<byte>, header: seq<byte>, derive: seq<byte> -> Option<Suite>,
      s: Suite, log: set<Sealed>, content: seq<byte>)
    requires |magic| == 16 && 0 < |header| <= MAX_HEADER && |content| < LAST
    requires Ideal(s, log) && SealedFrom(log, content)
    requires derive(magic + Be32(|header|) + header) == Some(s)
    requires magic + Be32(|header|) + header <= file
    requires Decrypted(file, magic, derive).Some?
    ensures Decrypted(file, magic, derive) == Some(content)
    ensures Sized(s) && IsArchive(file, magic, header, s, content)
  {
    hide Be32, FromBe32, Encode, Decode, Ideal, Sized, SealedFrom, Tail;
    IdealIsSized(s, log);
    var prefix := magic + Be32(|header|) + header;
    PrefixParts(file, magic, header);
    TailOfNothing(content);
    AcceptedIsAuthentic(s, log, content, file[20 + |header|..], 0, 0);
    assert file == prefix + file[20 + |header|..];
  }

  /** Under an ideal cipher, of all files with this header exactly the archive is accepted, and it gives the
      content back: a file that was cut, extended, reordered or changed anywhere is refused. */
  lemma ArchiveExact(file: seq<byte>, magic: seq<byte>, header: seq<byte>, derive: seq<byte> -> Option<Suite>, s: Suite,
      log: set<Sealed>, content: seq<byte>)
    requires |magic| == 16 && 0 < |header| <= MAX_HEADER && 1 <= |content| <= MAX_PLAIN
    requires Ideal(s, log) && SealedFrom(log, content) && AllSealed(log, content)
    requires derive(magic + Be32(|header|) + header) == Some(s)
    requires magic + Be32(|header|) + header <= file
    ensures Sized(s)
    ensures Decrypted(file, magic, derive) == if IsArchive(file, magic, header, s, content) then Some(content) else None
  {
    hide Be32, FromBe32, Ideal, Sized, SealedFrom, AllSealed, AllReadable, Decrypted, IsArchive;
    IdealIsSized(s, log);
    if IsArchive(file, magic, header, s, content) {
      IdealReadsSealed(s, log, content);
      ArchiveRoundTrip(file, magic, header, derive, s, content);
    } else if Decrypted(file, magic, derive).Some? {
      AcceptedIsArchive(file, magic, header, derive, s, log, content);
    }
  }

  lemma IdealIsSized(s: Suite, log: set<Sealed>)
    requires Ideal(s, log)
    ensures Sized(s)
  {}

  lemma PrefixParts(file: seq<byte>, magic: seq<byte>, header: seq<byte>)
    requires |magic| == 16 && |header| < TWO32 && magic + Be32(|header|) + header <= file
    ensures file[..16] == magic && FromBe32(file[16..20]) == |header|
    ensures file[..20 + |header|] == magic + Be32(|header|) + header
  {}

  lemma TailOfNothing(content: seq<byte>)
    ensures Tail(content, 0) == content
  {}

  function Flat(pieces: seq<seq<byte>>): seq<byte> {
    if pieces == [] then [] else Flat(pieces[..|pieces| - 1]) + pieces[|pieces| - 1]
  }

  lemma FlatGrows(pieces: seq<seq<byte>>, i: nat)
    requires i < |pieces|
    ensures Flat(pieces[..i + 1]) == Flat(pieces[..i]) + pieces[i]
  {
    assert pieces[..i + 1][..i] == pieces[..i];
  }

  /** Every record of the stream of `content`. */
  ghost function LogOf(content: seq<byte>): set<Sealed> {
    set j: nat | j <= |content| && InStream(content, j) :: At(content, j)
  }

  /** For every content there are a cipher and a log under which ArchiveExact applies. */
  lemma ExactnessApplies(content: seq<byte>, noncePrefix: seq<byte>, headerHash: seq<byte>)
    ensures var s := LogSuite(LogOf(content), noncePrefix, headerHash);
      Ideal(s, LogOf(content)) && SealedFrom(LogOf(content), content) && AllSealed(LogOf(content), content)
  {}

  lemma {:induction false} FlatPrefix(pieces: seq<seq<byte>>, i: nat)
    requires i <= |pieces|
    ensures |Flat(pieces[..i])| <= |Flat(pieces)|
    decreases |pieces| - i
  {
    if i < |pieces| {
      FlatPrefix(pieces, i + 1);
      FlatGrows(pieces, i);
    } else {
      assert pieces[..i] == pieces;
    }
  }

  /** A whole backup, its payload written in any pieces. What it leaves is the encoding of the payload; and if the
      cipher opens only what this writer sealed, then of all files with this header exactly this one is accepted. */
  method WriteArchive(s: Suite, magic: seq<byte>, header: seq<byte>, pieces: seq<seq<byte>>, undisturbed: bool,
      ghost derive: seq<byte> -> Option<Suite>)
    returns (ok: bool, file: seq<byte>, ghost log: set<Sealed>)
    requires Sized(s) && |magic| == 16 && 0 < |header| <= MAX_HEADER && 1 <= |Flat(pieces)| <= MAX_PLAIN
    requires derive(magic + Be32(|header|) + header) == Some(s)
    ensures undisturbed ==> ok
    ensures ok ==> IsArchive(file, magic, header, s, Flat(pieces)) && SealedFrom(log, Flat(pieces))
    ensures ok && Ideal(s, log) ==> forall other :: magic + Be32(|header|) + header <= other ==>
        Decrypted(other, magic, derive) == if other == file then Some(Flat(pieces)) else None
  {
    hide Sized, SealedFrom, AllSealed, Encode, FullChunks, SealedBefore, Full, Ideal, Decrypted, Be32, Flat;
    var prefix := magic + Be32(|header|) + header;
    var writer := new Writer(s, prefix, undisturbed);
    log, file := {}, [];
    assert Flat(pieces[..0]) == [] by { FlatNone(pieces); }
    for i := 0 to |pieces|
      invariant fresh(writer) && writer.Valid() && !writer.closed && writer.intact
      invariant writer.suite == s && writer.prefix == prefix && writer.steady == undisturbed
      invariant writer.content == Flat(pieces[..i])
    {
      FlatGrows(pieces, i);
      FlatPrefix(pieces, i + 1);
      var n, written := writer.Write(pieces[i]);
      if !written { return false, [], log; }
      assert pieces[i][..n] == pieces[i];
    }
    assert pieces[..|pieces|] == pieces;
    ok := writer.Close();
    log, file := writer.log, writer.destination;
    if ok && Ideal(s, log) {
      forall other | prefix <= other
        ensures Decrypted(other, magic, derive) == if other == file then Some(Flat(pieces)) else None
      {
        ArchiveExact(other, magic, header, derive, s, log, Flat(pieces));
      }
    }
  }

  lemma FlatNone(pieces: seq<seq<byte>>)
    ensures Flat(pieces[..0]) == []
  {}
}
