/** The strict signature check: which byte strings pass for a P-256 signature. */
module Der {
  import opened Prelude

  /** The order of the P-256 group. */
  const P256_ORDER := 0xFFFFFFFF00000000FFFFFFFFFFFFFFFFBCE6FAADA7179E84F3B9CAC2FC632551

  // ----------------------------------------------------------------- numbers

  /** Big-endian value, as `int.from_bytes`. */
  function Value(b: Bytes): nat {
    if b == [] then 0 else 256 * Value(b[..|b| - 1]) + b[|b| - 1]
  }

  /** The big-endian digits of a number, without leading zeros. */
  function Magnitude(n: nat): Bytes {
    if n == 0 then [] else Magnitude(n / 256) + [n % 256]
  }

  lemma {:induction false} MagnitudeHasValue(n: nat)
    ensures Value(Magnitude(n)) == n
    ensures n > 0 ==> Magnitude(n) != [] && Magnitude(n)[0] > 0
  {
    if n > 0 {
      MagnitudeHasValue(n / 256);
      var b := Magnitude(n);
      assert b[..|b| - 1] == Magnitude(n / 256);
    }
  }

  lemma {:induction false} ValueHasMagnitude(b: Bytes)
    requires b != [] ==> b[0] > 0
    ensures Magnitude(Value(b)) == b
  {
    if b != [] {
      var front, last := b[..|b| - 1], b[|b| - 1];
      ValueHasMagnitude(front);
      if front == [] {
        assert b == [last];
        assert Magnitude(last / 256) == [];
      } else {
        assert front[0] == b[0];
        assert Value(b) / 256 == Value(front) && Value(b) % 256 == last;
        assert Value(front) > 0 by {
          assert Magnitude(Value(front)) != [];
        }
        assert b == front + [last];
      }
    }
  }

  lemma {:induction false} LeadingZero(b: Bytes)
    ensures Value([0] + b) == Value(b)
  {
    var z := [0] + b;
    if b == [] {
      assert z[..0] == [];
    } else {
      LeadingZero(b[..|b| - 1]);
      assert z[..|z| - 1] == [0] + b[..|b| - 1];
    }
  }

  function Pow256(k: nat): nat {
    if k == 0 then 1 else 256 * Pow256(k - 1)
  }

  lemma {:induction false} PowAdds(j: nat, k: nat)
    ensures Pow256(j + k) == Pow256(j) * Pow256(k)
  {
    if j > 0 {
      PowAdds(j - 1, k);
      assert Pow256(j + k) == 256 * (Pow256(j - 1) * Pow256(k)) == (256 * Pow256(j - 1)) * Pow256(k);
    }
  }

  lemma {:induction false} ShortMagnitude(n: nat, k: nat)
    requires n < Pow256(k)
    ensures |Magnitude(n)| <= k
  {
    if n > 0 {
      ShortMagnitude(n / 256, k - 1);
    }
  }

  lemma PowSquares(k: nat, p: nat)
    requires Pow256(k) == p
    ensures Pow256(k + k) == p * p
  {
    PowAdds(k, k);
  }

  lemma OrderFits()
    ensures P256_ORDER < Pow256(32)
  {
    var k := 1;
    PowSquares(k, 0x100);
    PowSquares(k + k, 0x1_0000);
    PowSquares(4 * k, 0x1_0000_0000);
    PowSquares(8 * k, 0x1_0000_0000_0000_0000);
    PowSquares(16 * k, 0x1_0000_0000_0000_0000_0000_0000_0000_0000);
  }

  // ---------------------------------------------------------------- encoding

  /** The contents octets of a positive INTEGER (section 8.3.2 of ITU-T X.690): two's
      complement, as short as it can be. */
  function Content(n: nat): Bytes
    requires n > 0
  {
    MagnitudeHasValue(n);
    if Magnitude(n)[0] >= 128 then [0] + Magnitude(n) else Magnitude(n)
  }

  /** A number that an accepted INTEGER can hold. */
  predicate Small(n: nat) {
    0 < n && |Magnitude(n)| <= 32
  }

  lemma ContentIsShort(n: nat)
    requires Small(n)
    ensures 1 <= |Content(n)| <= 33 && Content(n)[0] < 128 && Value(Content(n)) == n
  {
    MagnitudeHasValue(n);
    LeadingZero(Magnitude(n));
  }

  /** No shorter contents octets have this value and a clear sign bit. */
  lemma ContentIsMinimal(n: nat, other: Bytes)
    requires n > 0 && other != [] && other[0] < 128 && Value(other) == n
    ensures |Content(n)| <= |other|
    ensures |Content(n)| == |other| ==> other == Content(n)
  {
    MagnitudeHasValue(n);
    StripZeros(other);
  }

  lemma {:induction false} StripZeros(b: Bytes)
    requires Value(b) > 0
    ensures |Magnitude(Value(b))| <= |b|
    ensures b[0] > 0 ==> Magnitude(Value(b)) == b
    ensures |b| == |Magnitude(Value(b))| + 1 ==> b == [0] + Magnitude(Value(b))
    ensures |b| == |Magnitude(Value(b))| ==> b == Magnitude(Value(b))
    decreases |b|
  {
    if b[0] > 0 {
      ValueHasMagnitude(b);
    } else {
      assert b == [0] + b[1..];
      LeadingZero(b[1..]);
      StripZeros(b[1..]);
    }
  }

  function Integer(n: nat): Bytes
    requires Small(n)
  {
    ContentIsShort(n);
    [2, |Content(n)|] + Content(n)
  }

  /** The DER SEQUENCE of two INTEGERs (section 2.2.3 of RFC 3279). */
  function Encode(r: nat, s: nat): Bytes
    requires Small(r) && Small(s)
  {
    ContentIsShort(r);
    ContentIsShort(s);
    [48, |Integer(r)| + |Integer(s)|] + (Integer(r) + Integer(s))
  }

  lemma IntegerIsDecodable(a: nat, x: Bytes, b: nat, y: Bytes)
    requires Small(a) && Small(b) && Integer(a) + x == Integer(b) + y
    ensures a == b && x == y
  {
    ContentIsShort(a);
    ContentIsShort(b);
    var u, v := Integer(a) + x, Integer(b) + y;
    assert u[1] == |Content(a)| && v[1] == |Content(b)|;
    var n := 2 + |Content(a)|;
    assert u[2..n] == Content(a) && v[2..n] == Content(b);
    assert u[n..] == x && v[n..] == y;
  }

  /** No two pairs share an encoding. */
  lemma EncodeIsInjective(r: nat, s: nat, r': nat, s': nat)
    requires Small(r) && Small(s) && Small(r') && Small(s') && Encode(r, s) == Encode(r', s')
    ensures r == r' && s == s'
  {
    assert Encode(r, s)[2..] == Integer(r) + Integer(s);
    assert Encode(r', s')[2..] == Integer(r') + Integer(s');
    IntegerIsDecodable(r, Integer(s), r', Integer(s'));
    assert Integer(s) + [] == Integer(s) && Integer(s') + [] == Integer(s');
    IntegerIsDecodable(s, [], s', []);
  }

  // ------------------------------------------------------------------ parsing

  predicate LowPair(r: nat, s: nat) {
    0 < r < P256_ORDER && 0 < s <= P256_ORDER / 2
  }

  /** The signatures that the check is meant to let through. */
  ghost predicate Strict(signature: Bytes) {
    exists r, s :: LowPair(r, s) && Small(r) && Small(s) && signature == Encode(r, s)
  }

  /** An INTEGER stands at an offset. */
  ghost predicate Stands(signature: Bytes, offset: nat, n: nat) {
    Small(n) && offset <= |signature| && Integer(n) <= signature[offset..]
  }

  /** Reads one INTEGER and moves the offset past it. It succeeds exactly where one
      stands. */
  method ReadInteger(signature: Bytes, offset: nat) returns (value: Option<nat>, next: nat)
    requires offset <= |signature|
    ensures next <= |signature|
    ensures value.Some? ==> Stands(signature, offset, value.value) && next == offset + |Integer(value.value)|
    ensures value.None? ==> forall n :: !Stands(signature, offset, n)
  {
    forall n | Stands(signature, offset, n)
      ensures Readable(signature, offset)
    {
      StandingIsReadable(signature, offset, n);
    }
    if offset >= |signature| || signature[offset] != 2 {
      return None, offset;
    }
    next := offset + 1;
    if next >= |signature| {
      return None, next;
    }
    var length := signature[next];
    next := next + 1;
    if length == 0 || length > 33 || next + length > |signature| {
      return None, next;
    }
    var content := signature[next..next + length];
    next := next + length;
    if content[0] >= 128 {
      return None, next;
    }
    if length > 1 && content[0] == 0 && content[1] < 128 {
      return None, next;
    }
    var normalized := if content[0] == 0 then content[1..] else content;
    if normalized == [] || |normalized| > 32 {
      return None, next;
    }
    ReadableStands(signature, offset, content, normalized);
    return Some(Value(normalized)), next;
  }

  /** The reader's own conditions. */
  ghost predicate Readable(signature: Bytes, offset: nat) {
    && offset + 2 <= |signature| && signature[offset] == 2
    && var length := signature[offset + 1];
       && 1 <= length <= 33 && offset + 2 + length <= |signature|
       && Minimal(signature[offset + 2..offset + 2 + length])
  }

  ghost predicate Minimal(content: Bytes) {
    && content != [] && content[0] < 128 && !(|content| > 1 && content[0] == 0 && content[1] < 128)
    && var normalized := if content[0] == 0 then content[1..] else content;
       1 <= |normalized| <= 32
  }

  lemma StandingContent(signature: Bytes, offset: nat, n: nat)
    requires Stands(signature, offset, n)
    ensures offset + 2 + |Content(n)| <= |signature|
    ensures signature[offset] == 2 && signature[offset + 1] == |Content(n)|
    ensures signature[offset + 2..offset + 2 + |Content(n)|] == Content(n)
  {
    ContentIsShort(n);
    PrefixContent(signature[offset..], |Content(n)|, Content(n));
    assert signature[offset..][2..2 + |Content(n)|] == signature[offset + 2..offset + 2 + |Content(n)|];
  }

  lemma PrefixContent(t: Bytes, b: byte, c: Bytes)
    requires [2, b] + c <= t
    ensures t[0] == 2 && t[1] == b && t[2..2 + |c|] == c
  {
    assert t[..2 + |c|] == [2, b] + c;
    assert t[2..2 + |c|] == t[..2 + |c|][2..];
  }

  lemma StandingIsReadable(signature: Bytes, offset: nat, n: nat)
    requires Stands(signature, offset, n)
    ensures Readable(signature, offset)
  {
    StandingContent(signature, offset, n);
    ContentIsShort(n);
    ContentIsMinimalForm(n);
    assert signature[offset + 2..offset + 2 + signature[offset + 1]] == Content(n);
  }

  lemma ContentIsMinimalForm(n: nat)
    requires Small(n)
    ensures Minimal(Content(n))
  {
    ContentIsShort(n);
    MagnitudeHasValue(n);
  }

  lemma HeadedPrefix(t: Bytes, a: byte, b: byte, c: Bytes)
    requires 2 + |c| <= |t| && t[0] == a && t[1] == b && t[2..2 + |c|] == c
    ensures [a, b] + c <= t
  {
  }

  lemma ReadableStands(signature: Bytes, offset: nat, content: Bytes, normalized: Bytes)
    requires content != [] && offset + 2 + |content| <= |signature|
    requires signature[offset] == 2 && signature[offset + 1] == |content|
    requires signature[offset + 2..offset + 2 + |content|] == content && Minimal(content)
    requires normalized == if content[0] == 0 then content[1..] else content
    ensures Stands(signature, offset, Value(normalized)) && |Integer(Value(normalized))| == 2 + |content|
  {
    var t := signature[offset..];
    assert t[2..2 + |content|] == content;
    HeadedPrefix(t, 2, |content|, content);
    ContentOfNormalized(content, normalized);
  }

  /** What the reader accepts is the contents octets of the value it reads. */
  lemma ContentOfNormalized(content: Bytes, normalized: Bytes)
    requires content != [] && content[0] < 128
    requires normalized == if content[0] == 0 then content[1..] else content
    requires 1 <= |normalized| <= 32 && (content[0] == 0 ==> normalized[0] >= 128)
    ensures Small(Value(normalized)) && Content(Value(normalized)) == content
  {
    ValueHasMagnitude(normalized);
    assert content[0] == 0 ==> content == [0] + content[1..];
  }

  lemma StandingIsUnique(signature: Bytes, offset: nat, a: nat, b: nat)
    requires Stands(signature, offset, a) && Stands(signature, offset, b)
    ensures a == b
  {
    StandingContent(signature, offset, a);
    StandingContent(signature, offset, b);
    ContentIsShort(a);
    ContentIsShort(b);
  }

  /** A header and two INTEGERs that fill the rest. */
  ghost predicate Laid(signature: Bytes, r: nat, s: nat) {
    && Stands(signature, 2, r) && Stands(signature, 2 + |Integer(r)|, s)
    && |signature| == 2 + |Integer(r)| + |Integer(s)|
    && signature[0] == 48 && signature[1] == |signature| - 2
  }

  lemma Parts(x: byte, y: byte, a: Bytes, b: Bytes)
    ensures var e := [x, y] + (a + b); e[2..] == a + b && e[2 + |a|..] == b && a <= e[2..] && b <= e[2 + |a|..]
  {
    var e := [x, y] + (a + b);
    assert e[2..] == a + b;
    assert e[2 + |a|..] == e[2..][|a|..] == b;
  }

  lemma Rejoin(whole: Bytes, a: Bytes, b: Bytes)
    requires |whole| == 2 + |a| + |b| && a <= whole[2..] && b <= whole[2 + |a|..]
    ensures whole == [whole[0], whole[1]] + (a + b)
  {
    var rest := whole[2..];
    assert rest[..|a|] == a && rest[|a|..] == whole[2 + |a|..] == b;
    assert rest == rest[..|a|] + rest[|a|..];
    assert whole == [whole[0], whole[1]] + rest;
  }

  lemma EncodeIsLaid(r: nat, s: nat)
    requires Small(r) && Small(s)
    ensures Laid(Encode(r, s), r, s) && 8 <= |Encode(r, s)| <= 72
  {
    ContentIsShort(r);
    ContentIsShort(s);
    Parts(48, |Integer(r)| + |Integer(s)|, Integer(r), Integer(s));
  }

  lemma LaidIsEncode(signature: Bytes, r: nat, s: nat)
    requires Laid(signature, r, s)
    ensures signature == Encode(r, s) && 8 <= |signature| <= 72
  {
    ContentIsShort(r);
    ContentIsShort(s);
    Rejoin(signature, Integer(r), Integer(s));
  }

  /** Strictness as the reader sees it. */
  lemma StrictIsLaid(signature: Bytes)
    ensures Strict(signature) <==> exists r, s :: LowPair(r, s) && Laid(signature, r, s)
  {
    if Strict(signature) {
      var r, s :| LowPair(r, s) && Small(r) && Small(s) && signature == Encode(r, s);
      EncodeIsLaid(r, s);
      assert Laid(signature, r, s);
    }
    if exists r, s :: LowPair(r, s) && Laid(signature, r, s) {
      var r, s :| LowPair(r, s) && Laid(signature, r, s);
      LaidIsEncode(signature, r, s);
    }
  }

  /** What the reader did not find is not there. */
  lemma LaidIsRead(signature: Bytes, r: nat, s: nat, a: Option<nat>, b: Option<nat>, middle: nat, end: nat)
    requires Laid(signature, r, s)
    requires a.Some? ==> Stands(signature, 2, a.value) && middle == 2 + |Integer(a.value)|
    requires a.None? ==> !Stands(signature, 2, r)
    requires b.Some? ==> Stands(signature, middle, b.value) && end == middle + |Integer(b.value)|
    requires b.None? ==> !Stands(signature, middle, s)
    ensures a == Some(r) && b == Some(s) && end == |signature|
  {
    StandingIsUnique(signature, 2, r, a.value);
    StandingIsUnique(signature, 2 + |Integer(r)|, s, b.value);
  }

  lemma LaidIsBounded(signature: Bytes)
    requires exists r, s :: LowPair(r, s) && Laid(signature, r, s)
    ensures 8 <= |signature| <= 72 && signature[0] == 48 && signature[1] == |signature| - 2
  {
    var r, s :| LowPair(r, s) && Laid(signature, r, s);
    LaidIsEncode(signature, r, s);
  }

  /** The check accepts exactly the encodings of pairs with a low s. */
  method IsStrictLowS(signature: Bytes) returns (ok: bool)
    ensures ok <==> Strict(signature)
  {
    StrictIsLaid(signature);
    if Strict(signature) {
      LaidIsBounded(signature);
    }
    if |signature| < 8 || |signature| > 72 {
      return false;
    }
    if signature[0] != 48 || signature[1] != |signature| - 2 {
      return false;
    }
    var r, middle := ReadInteger(signature, 2);
    var s, offset := ReadInteger(signature, middle);
    if Strict(signature) {
      var a, b :| LowPair(a, b) && Laid(signature, a, b);
      LaidIsRead(signature, a, b, r, s, middle, offset);
    }
    return offset == |signature| && r.Some? && s.Some? && LowPair(r.value, s.value);
  }

  /** Every pair in range has exactly one encoding that is let through. */
  lemma StrictEncodesPairs(r: nat, s: nat)
    requires Small(r) && Small(s)
    ensures Strict(Encode(r, s)) <==> LowPair(r, s)
  {
    if Strict(Encode(r, s)) {
      var a, b :| LowPair(a, b) && Small(a) && Small(b) && Encode(r, s) == Encode(a, b);
      EncodeIsInjective(r, s, a, b);
    }
  }

  /** Of a signature and its twin with the negated s, exactly one is let through. */
  lemma ExactlyOneTwin(r: nat, s: nat)
    requires 0 < r < P256_ORDER && 0 < s < P256_ORDER
    ensures Small(r) && Small(s) && Small(P256_ORDER - s)
    ensures Strict(Encode(r, s)) <==> !Strict(Encode(r, P256_ORDER - s))
  {
    OrderFits();
    ShortMagnitude(r, 32);
    ShortMagnitude(s, 32);
    ShortMagnitude(P256_ORDER - s, 32);
    StrictEncodesPairs(r, s);
    StrictEncodesPairs(r, P256_ORDER - s);
  }
}
