/** Cursor pagination of graph candidates: a masked, signed offset codec and the pages that follow
    its cursors. The base64 text around a cursor is left out: a cursor is its 24 raw bytes. */
module Cursor {
  import opened Options

  type Byte = n: nat | n < 256

  const OFFSET_BYTES: nat := 8
  const SIGNATURE_BYTES: nat := 16
  const OFFSETS: nat := 0x1_0000_0000_0000_0000
  const MAX_LIMIT := 100

  type Pad = s: seq<Byte> | |s| == 8 witness [0, 0, 0, 0, 0, 0, 0, 0]
  type Signature = s: seq<Byte> | |s| == 16 witness [0, 0, 0, 0, 0, 0, 0, 0, 0, 0, 0, 0, 0, 0, 0, 0]

  /** The keyed hashes of one session, node and secret: a pad to mask with, and a signature of any
      masked offset. Nothing is known about either but its length. */
  datatype Scope = Scope(pad: Pad, sign: seq<Byte> -> Signature)

  /* ---------- Big-endian bytes ---------- */

  function Power(k: nat): (p: nat)
    ensures p >= 1
  {
    if k == 0 then 1 else 256 * Power(k - 1)
  }

  /** The `length` low bytes of `n`, most significant first. */
  function ToBytes(n: nat, length: nat): (s: seq<Byte>)
    ensures |s| == length
  {
    if length == 0 then [] else ToBytes(n / 256, length - 1) + [n % 256]
  }

  function FromBytes(s: seq<Byte>): nat {
    if s == [] then 0 else 256 * FromBytes(s[..|s| - 1]) + s[|s| - 1]
  }

  lemma {:induction false} FromBytesBelow(s: seq<Byte>)
    ensures FromBytes(s) < Power(|s|)
  {
    if s != [] {
      FromBytesBelow(s[..|s| - 1]);
    }
  }

  lemma {:induction false} FromToBytes(n: nat, length: nat)
    requires n < Power(length)
    ensures FromBytes(ToBytes(n, length)) == n
  {
    if length > 0 {
      FromToBytes(n / 256, length - 1);
      assert ToBytes(n, length)[..length - 1] == ToBytes(n / 256, length - 1);
    }
  }

  lemma {:induction false} ToFromBytes(s: seq<Byte>)
    ensures ToBytes(FromBytes(s), |s|) == s
  {
    if s != [] {
      var n, last := |s| - 1, s[|s| - 1];
      ToFromBytes(s[..n]);
      assert FromBytes(s) / 256 == FromBytes(s[..n]) && FromBytes(s) % 256 == last;
      assert s == s[..n] + [last];
    }
  }

  lemma EightBytes()
    ensures Power(OFFSET_BYTES) == OFFSETS
  {
    assert Power(1) == 256;
    assert Power(2) == 256 * 256;
    assert Power(4) == 256 * (256 * Power(2));
    assert Power(6) == 256 * (256 * Power(4));
  }

  /* ---------- The codec ---------- */

  /** Exclusive or of the `width` low bits. */
  function XorBits(x: nat, y: nat, width: nat): (r: nat)
    ensures r < Twos(width)
  {
    if width == 0 then 0 else XorBit(x, y) + 2 * XorBits(x / 2, y / 2, width - 1)
  }

  function Twos(k: nat): (p: nat)
    ensures p >= 1
  {
    if k == 0 then 1 else 2 * Twos(k - 1)
  }

  function XorBit(a: nat, b: nat): (r: nat)
    ensures r < 2
  {
    (a % 2 + b % 2) % 2
  }

  lemma BitAndRest(low: nat, rest: nat)
    requires low < 2
    ensures (low + 2 * rest) % 2 == low && (low + 2 * rest) / 2 == rest
  {}

  lemma UnmaskBit(x: nat, y: nat)
    ensures XorBit(XorBit(x, y), y) == x % 2
  {}

  lemma {:induction false} UnmaskBits(x: nat, y: nat, width: nat)
    requires x < Twos(width)
    ensures XorBits(XorBits(x, y, width), y, width) == x
  {
    if width > 0 {
      UnmaskBits(x / 2, y / 2, width - 1);
      BitAndRest(XorBit(x, y), XorBits(x / 2, y / 2, width - 1));
      UnmaskBit(x, y);
      hide XorBit;
      var r := XorBits(x, y, width);
      assert r % 2 == XorBit(x, y) && r / 2 == XorBits(x / 2, y / 2, width - 1);
      XorLow(r, x, y);
      assert XorBits(r, y, width) == XorBit(r, y) + 2 * XorBits(r / 2, y / 2, width - 1);
    }
  }

  lemma XorLow(r: nat, x: nat, y: nat)
    requires r % 2 == XorBit(x, y)
    ensures XorBit(r, y) == XorBit(XorBit(x, y), y)
  {}

  function XorByte(x: Byte, y: Byte): Byte {
    assert Twos(8) == 256 by {
      assert Twos(2) == 4;
      assert Twos(4) == 2 * (2 * Twos(2));
      assert Twos(6) == 2 * (2 * Twos(4));
    }
    XorBits(x, y, 8)
  }

  lemma UnmaskByte(x: Byte, p: Byte)
    ensures XorByte(XorByte(x, p), p) == x
  {
    assert Twos(8) == 256 by {
      assert Twos(2) == 4;
      assert Twos(4) == 2 * (2 * Twos(2));
      assert Twos(6) == 2 * (2 * Twos(4));
    }
    UnmaskBits(x, p, 8);
  }

  function Xor(s: seq<Byte>, pad: Pad): (r: seq<Byte>)
    requires |s| == OFFSET_BYTES
    ensures |r| == OFFSET_BYTES
  {
    seq(OFFSET_BYTES, i requires 0 <= i < OFFSET_BYTES => XorByte(s[i], pad[i]))
  }

  lemma UnmaskMask(s: seq<Byte>, pad: Pad)
    requires |s| == OFFSET_BYTES
    ensures Xor(Xor(s, pad), pad) == s
  {
    forall i | 0 <= i < OFFSET_BYTES
      ensures Xor(Xor(s, pad), pad)[i] == s[i]
    {
      UnmaskByte(s[i], pad[i]);
    }
  }

  /** No cursor when the offset does not fit into eight bytes: the source raises. */
  function Encode(scope: Scope, offset: nat): Option<seq<Byte>> {
    if offset >= OFFSETS then None
    else
      var masked := Xor(ToBytes(offset, OFFSET_BYTES), scope.pad);
      Some(masked + scope.sign(masked))
  }

  function Decode(scope: Scope, raw: seq<Byte>): Option<nat> {
    if |raw| != OFFSET_BYTES + SIGNATURE_BYTES then None
    else
      var masked := raw[..OFFSET_BYTES];
      if raw[OFFSET_BYTES..] != scope.sign(masked) then None
      else Some(FromBytes(Xor(masked, scope.pad)))
  }

  /** The accepted cursors are exactly the encoded ones, each for its own offset. */
  lemma DecodeIff(scope: Scope, raw: seq<Byte>, offset: nat)
    ensures Decode(scope, raw) == Some(offset) <==> Encode(scope, offset) == Some(raw)
  {
    EightBytes();
    if offset < OFFSETS {
      var bytes := ToBytes(offset, OFFSET_BYTES);
      var masked := Xor(bytes, scope.pad);
      FromToBytes(offset, OFFSET_BYTES);
      UnmaskMask(bytes, scope.pad);
      assert (masked + scope.sign(masked))[..OFFSET_BYTES] == masked;
      assert (masked + scope.sign(masked))[OFFSET_BYTES..] == scope.sign(masked);
    }
    if Decode(scope, raw) == Some(offset) {
      var masked := raw[..OFFSET_BYTES];
      var bytes := Xor(masked, scope.pad);
      UnmaskMask(masked, scope.pad);
      FromBytesBelow(bytes);
      ToFromBytes(bytes);
      assert raw == masked + raw[OFFSET_BYTES..];
    }
  }

  /** Every offset below 2^64 survives the round trip, and two offsets never share a cursor. */
  lemma RoundTrip(scope: Scope, offset: nat, other: nat)
    requires offset < OFFSETS
    ensures Decode(scope, Encode(scope, offset).value) == Some(offset)
    ensures Encode(scope, other) == Encode(scope, offset) ==> other == offset
  {
    DecodeIff(scope, Encode(scope, offset).value, offset);
    DecodeIff(scope, Encode(scope, offset).value, other);
  }

  /** Any accepted cursor re-encodes to the same 24 bytes. */
  lemma AcceptedReencodes(scope: Scope, raw: seq<Byte>)
    requires Decode(scope, raw).Some?
    ensures Decode(scope, raw).value < OFFSETS && Encode(scope, Decode(scope, raw).value) == Some(raw)
  {
    DecodeIff(scope, raw, Decode(scope, raw).value);
  }

  /* ---------- The layout of a cursor ---------- */

  /** Byte `i` of the eight bytes is that of the power of 256 that belongs to its place. */
  lemma {:induction false} BytesAt(n: nat, length: nat, i: nat)
    requires i < length
    ensures ToBytes(n, length)[i] == n / Power(length - 1 - i) % 256
  {
    if i < length - 1 {
      BytesAt(n / 256, length - 1, i);
      DivideTwice(n, Power(length - 2 - i));
    }
  }

  lemma DivideTwice(n: nat, p: nat)
    requires p >= 1
    ensures n / 256 / p == n / (256 * p)
  {
    var q, r := n / 256 / p, n / 256 % p;
    assert n == 256 * (p * q + r) + n % 256;
    assert 256 * r + n % 256 < 256 * p;
    assert n == (256 * p) * q + (256 * r + n % 256);
    Quotient(n, 256 * p, q, 256 * r + n % 256);
  }

  lemma Quotient(n: nat, d: nat, q: nat, r: nat)
    requires n == d * q + r && r < d
    ensures n / d == q
  {
    var m: int := n / d - q;
    assert n == d * (n / d) + n % d;
    assert d * m == r - n % d;
    Multiple(d, m);
  }

  lemma Multiple(d: nat, m: int)
    ensures m >= 1 ==> d * m >= d
    ensures m <= -1 ==> d * m + d <= 0
  {}

  function BitAt(n: nat, j: nat): nat {
    n / Twos(j) % 2
  }

  lemma BitShift(n: nat, j: nat)
    requires j > 0
    ensures BitAt(n, j) == BitAt(n / 2, j - 1)
  {
    var p := Twos(j - 1);
    var q, r := n / 2 / p, n / 2 % p;
    assert n == 2 * (p * q + r) + n % 2 == (2 * p) * q + (2 * r + n % 2);
    Quotient(n, 2 * p, q, 2 * r + n % 2);
  }

  lemma LowBit(n: nat)
    ensures BitAt(n, 0) == n % 2
  {}

  /** Bit `j` of a masked byte is set where exactly one of the two has it set. */
  lemma {:induction false} XorBitsAt(x: nat, y: nat, width: nat, j: nat)
    requires j < width
    ensures BitAt(XorBits(x, y, width), j) == (BitAt(x, j) + BitAt(y, j)) % 2
  {
    var r, rest := XorBits(x, y, width), XorBits(x / 2, y / 2, width - 1);
    BitAndRest(XorBit(x, y), rest);
    if j == 0 {
      LowBit(r);
      LowBit(x);
      LowBit(y);
      hide BitAt;
    } else {
      hide BitAt, XorBit;
      BitShift(r, j);
      BitShift(x, j);
      BitShift(y, j);
      XorBitsAt(x / 2, y / 2, width - 1, j - 1);
    }
  }

  /** A cursor is the offset in eight bytes, most significant first and each masked with the byte of
      the pad in its place, and behind them the sixteen bytes of their signature. */
  lemma EncodeLayout(scope: Scope, offset: nat)
    ensures Encode(scope, offset).None? <==> offset >= 0x1_0000_0000_0000_0000
    ensures Encode(scope, offset).Some? ==>
              var raw := Encode(scope, offset).value;
              && |raw| == 24 && raw[8..] == scope.sign(raw[..8])
              && forall i :: 0 <= i < 8 ==> raw[i] == XorByte(offset / Power(7 - i) % 256, scope.pad[i])
  {
    if offset < OFFSETS {
      var bytes := ToBytes(offset, 8);
      var masked := Xor(bytes, scope.pad);
      var raw := masked + scope.sign(masked);
      assert raw[..8] == masked && raw[8..] == scope.sign(masked);
      forall i: nat | i < 8
        ensures raw[i] == XorByte(offset / Power(7 - i) % 256, scope.pad[i])
      {
        BytesAt(offset, 8, i);
        assert raw[i] == masked[i];
      }
    }
  }

  /* ---------- Pages ---------- */

  /** `Page` without `next` is the last one. */
  datatype Answer<T> = NotFound | Raised | Page(items: seq<T>, next: Option<seq<Byte>>)

  function SafeLimit(limit: int): (r: nat)
    ensures 1 <= r <= MAX_LIMIT
  {
    var atLeast := if limit > 1 then limit else 1;
    if atLeast < MAX_LIMIT then atLeast else MAX_LIMIT
  }

  /** Slicing as the source does it: bounds past the end are cut down to it. */
  function Slice<T>(s: seq<T>, from: nat, to: nat): seq<T>
    requires from <= to
  {
    if from >= |s| then [] else if to >= |s| then s[from..] else s[from..to]
  }

  /** No cursor, or an empty one, starts at the beginning. */
  function ListCandidates<T>(scope: Scope, candidates: seq<T>, limit: int, cursor: seq<Byte>): Answer<T> {
    var offset := if cursor == [] then Some(0) else Decode(scope, cursor);
    if offset.None? then NotFound
    else
      var next := offset.value + SafeLimit(limit);
      var page := Slice(candidates, offset.value, next);
      if next >= |candidates| then Page(page, None)
      else
        match Encode(scope, next)
        case None => Raised
        case Some(raw) => Page(page, Some(raw))
  }

  /** How long a page may be: between 1 and 100 items, and as asked for within these bounds. */
  ghost function PageSize(limit: int): nat {
    if limit < 1 then 1 else if limit > 100 then 100 else limit
  }

  ghost predicate Accepted(scope: Scope, cursor: seq<Byte>, offset: nat) {
    if cursor == [] then offset == 0 else Encode(scope, offset) == Some(cursor)
  }

  /** The answer to a cursor that stands for an offset: the items from there on, as many as a page
      takes, and the cursor of the next page unless the list ends here. An offset behind the end gives
      an empty last page. */
  lemma PageIs<T>(scope: Scope, candidates: seq<T>, limit: int, cursor: seq<Byte>, offset: nat)
    requires Accepted(scope, cursor, offset)
    ensures var answer, next := ListCandidates(scope, candidates, limit, cursor), offset + PageSize(limit);
            if next < |candidates| then
              if Encode(scope, next).None? then answer == Raised
              else answer == Page(candidates[offset..next], Encode(scope, next))
            else answer == Page(if offset < |candidates| then candidates[offset..] else [], None)
  {
    if cursor != [] {
      DecodeIff(scope, cursor, offset);
    }
    hide Decode, Encode;
  }

  /** A cursor that no offset encodes to is not found. */
  lemma NotFoundIff<T>(scope: Scope, candidates: seq<T>, limit: int, cursor: seq<Byte>)
    ensures ListCandidates(scope, candidates, limit, cursor) == NotFound
       <==> forall offset :: !Accepted(scope, cursor, offset)
  {
    var offset := if cursor == [] then Some(0) else Decode(scope, cursor);
    if offset.Some? {
      if cursor != [] {
        DecodeIff(scope, cursor, offset.value);
      }
      assert Accepted(scope, cursor, offset.value);
    } else {
      forall o: nat
        ensures !Accepted(scope, cursor, o)
      {
        DecodeIff(scope, cursor, o);
      }
    }
    hide Decode, Encode;
  }

  ghost predicate Follows<T>(scope: Scope, candidates: seq<T>, limit: int, previous: Answer<T>, answer: Answer<T>) {
    && previous.Page? && previous.next.Some?
    && answer == ListCandidates(scope, candidates, limit, previous.next.value)
  }

  /** The answers of a client that starts without a cursor and follows `next` with any limits. */
  ghost predicate Walk<T>(scope: Scope, candidates: seq<T>, limits: seq<int>, answers: seq<Answer<T>>) {
    && |answers| == |limits| > 0
    && answers[0] == ListCandidates(scope, candidates, limits[0], [])
    && forall i :: 1 <= i < |answers| ==> Follows(scope, candidates, limits[i], answers[i - 1], answers[i])
  }

  ghost function Items<T>(answers: seq<Answer<T>>): seq<T> {
    if answers == [] then []
    else
      var n := |answers| - 1;
      Items(answers[..n]) + if answers[n].Page? then answers[n].items else []
  }

  /** A page that ends at `next` carries on exactly where the earlier ones stopped. */
  ghost predicate Reached<T>(scope: Scope, candidates: seq<T>, answers: seq<Answer<T>>) {
    && answers != []
    && var last := answers[|answers| - 1];
    && last.Page?
    && Items(answers) <= candidates
    && (last.next.None? ==> Items(answers) == candidates)
    && (last.next.Some? ==>
          && |answers| <= |Items(answers)| < |candidates|
          && Encode(scope, |Items(answers)|) == last.next)
  }

  lemma PageFollows<T>(scope: Scope, candidates: seq<T>, limit: int, cursor: seq<Byte>, seen: nat)
    requires |candidates| <= OFFSETS && seen <= |candidates|
    requires if cursor == [] then seen == 0 else seen < |candidates| && Encode(scope, seen) == Some(cursor)
    ensures var answer := ListCandidates(scope, candidates, limit, cursor);
            && answer.Page?
            && candidates[..seen] + answer.items <= candidates
            && (answer.next.None? ==> candidates[..seen] + answer.items == candidates)
            && (answer.next.Some? ==>
                  && 1 <= |answer.items| && seen + |answer.items| < |candidates|
                  && Encode(scope, seen + |answer.items|) == answer.next)
  {
    if cursor != [] {
      DecodeIff(scope, cursor, seen);
    }
    hide Decode;
    var next := seen + SafeLimit(limit);
    if next < |candidates| {
      assert candidates[..seen] + candidates[seen..next] == candidates[..next];
    } else {
      assert candidates[..seen] + candidates[seen..] == candidates;
    }
  }

  /** Following the cursors never fails, never repeats and never skips: the pages of any walk spell
      out a prefix of the collection, all of it exactly when the last page has no cursor, and no
      walk is longer than the collection (or the one request an empty collection takes). */
  lemma {:induction false} WalkCovers<T>(scope: Scope, candidates: seq<T>, limits: seq<int>, answers: seq<Answer<T>>)
    requires Walk(scope, candidates, limits, answers) && |candidates| <= OFFSETS
    ensures Reached(scope, candidates, answers)
    ensures answers[|answers| - 1].next.None? <==> Items(answers) == candidates
    ensures |answers| <= if |candidates| == 0 then 1 else |candidates|
    decreases |limits|
  {
    hide Items, Encode, ListCandidates, Follows, Walk;
    var n := |answers| - 1;
    WalkPrefix(scope, candidates, limits, answers);
    if n == 0 {
      FirstPage(scope, candidates, limits[0], answers[0]);
      assert answers == [answers[0]];
    } else {
      WalkCovers(scope, candidates, limits[..n], answers[..n]);
      NextPage(scope, candidates, limits[n], answers[..n], answers[n]);
      assert answers == answers[..n] + [answers[n]];
    }
  }

  lemma WalkPrefix<T>(scope: Scope, candidates: seq<T>, limits: seq<int>, answers: seq<Answer<T>>)
    requires Walk(scope, candidates, limits, answers)
    ensures |answers| == |limits| > 0
    ensures var n := |answers| - 1;
            if n == 0 then answers[0] == ListCandidates(scope, candidates, limits[0], [])
            else
              && Walk(scope, candidates, limits[..n], answers[..n])
              && Follows(scope, candidates, limits[n], answers[..n][n - 1], answers[n])
              && answers[..n][n - 1].Page? && answers[..n][n - 1].next.Some?
  {
    hide ListCandidates;
  }

  lemma FirstPage<T>(scope: Scope, candidates: seq<T>, limit: int, answer: Answer<T>)
    requires answer == ListCandidates(scope, candidates, limit, []) && |candidates| <= OFFSETS
    ensures Reached(scope, candidates, [answer])
  {
    PageFollows(scope, candidates, limit, [], 0);
    ItemsGrow([], answer);
    assert [] + [answer] == [answer] && candidates[..0] + answer.items == answer.items;
    hide ListCandidates, Encode;
  }

  lemma ItemsGrow<T>(answers: seq<Answer<T>>, answer: Answer<T>)
    ensures Items(answers + [answer]) == Items(answers) + if answer.Page? then answer.items else []
    ensures Items<T>([]) == []
  {
    assert (answers + [answer])[..|answers|] == answers;
  }

  lemma NextPage<T>(scope: Scope, candidates: seq<T>, limit: int, answers: seq<Answer<T>>, answer: Answer<T>)
    requires Reached(scope, candidates, answers) && |candidates| <= OFFSETS
    requires Follows(scope, candidates, limit, answers[|answers| - 1], answer)
    ensures Reached(scope, candidates, answers + [answer])
  {
    var previous, seen := answers[|answers| - 1], |Items(answers)|;
    assert previous.next.value != [] by {
      EncodedLength(scope, seen);
    }
    PageFollows(scope, candidates, limit, previous.next.value, seen);
    ItemsGrow(answers, answer);
    assert Items(answers) == candidates[..seen];
    hide ListCandidates, Encode, Items;
  }

  lemma EncodedLength(scope: Scope, offset: nat)
    ensures Encode(scope, offset).Some? ==> |Encode(scope, offset).value| == OFFSET_BYTES + SIGNATURE_BYTES
  {}
}
