/** UTF-8 as section 3 of RFC 3629 defines it: characters to octets and back. */
module Utf8 {
  import opened Wrappers

  type byte = n: int | 0 <= n < 256

  /** The octets of one character. */
  function Encode(c: char): (r: seq<byte>)
    ensures 1 <= |r| <= 4
  {
    var u := c as int;
    if u < 0x80 then [u]
    else if u < 0x800 then [0xC0 + u / 0x40, Tail(u)]
    else if u < 0x1_0000 then [0xE0 + u / 0x1000, Tail(u / 0x40), Tail(u)]
    else [0xF0 + u / 0x4_0000, Tail(u / 0x1000), Tail(u / 0x40), Tail(u)]
  }

  function Tail(u: nat): byte { 0x80 + u % 0x40 }

  function EncodeAll(s: string): seq<byte>
  {
    if s == [] then [] else Encode(s[0]) + EncodeAll(s[1..])
  }

  /** A continuation octet; every other octet starts a character. */
  predicate Continues(b: byte) { 0x80 <= b < 0xC0 }

  predicate Scalar(u: int) { 0 <= u < 0xD800 || 0xE000 <= u < 0x11_0000 }

  /** Six more bits. */
  function Shift(u: nat, b: byte): nat
    requires Continues(b)
  {
    u * 0x40 + (b - 0x80)
  }

  /** The character at the front, if the octets start with a well-formed one: no overlong form, no
      surrogate, nothing above U+10FFFF. */
  function DecodeFirst(b: seq<byte>): (r: Option<(char, nat)>)
    ensures r.Some? ==> 0 < r.value.1 <= |b|
  {
    if b == [] then None
    else if b[0] < 0x80 then Some((b[0] as char, 1))
    else if 0xC0 <= b[0] < 0xE0 then
      if |b| < 2 || !Continues(b[1]) then None else
      var u := Shift(b[0] - 0xC0, b[1]);
      if 0x80 <= u then Some((u as char, 2)) else None
    else if 0xE0 <= b[0] < 0xF0 then
      if |b| < 3 || !Continues(b[1]) || !Continues(b[2]) then None else
      var u := Shift(Shift(b[0] - 0xE0, b[1]), b[2]);
      if 0x800 <= u && Scalar(u) then Some((u as char, 3)) else None
    else if 0xF0 <= b[0] < 0xF8 then
      if |b| < 4 || !Continues(b[1]) || !Continues(b[2]) || !Continues(b[3]) then None else
      var u := Shift(Shift(Shift(b[0] - 0xF0, b[1]), b[2]), b[3]);
      if 0x1_0000 <= u && Scalar(u) then Some((u as char, 4)) else None
    else None
  }

  function DecodeAll(b: seq<byte>): (r: Option<string>)
  {
    if b == [] then Some([]) else
    var first := DecodeFirst(b);
    if first.None? then None else
    var rest := DecodeAll(b[first.value.1..]);
    if rest.None? then None else Some([first.value.0] + rest.value)
  }

  // ----- Round trips -----

  lemma {:induction false} FirstOfEncoded(c: char, rest: seq<byte>)
    ensures DecodeFirst(Encode(c) + rest) == Some((c, |Encode(c)|))
  {
    var u := c as int;
    var b := Encode(c) + rest;
    if u < 0x80 {
    } else if u < 0x800 {
      assert b[0] == 0xC0 + u / 0x40 && b[1] == Tail(u);
    } else if u < 0x1_0000 {
      assert b[0] == 0xE0 + u / 0x1000 && b[1] == Tail(u / 0x40) && b[2] == Tail(u);
      assert u / 0x40 / 0x40 == u / 0x1000;
    } else {
      assert b[0] == 0xF0 + u / 0x4_0000 && b[1] == Tail(u / 0x1000) && b[2] == Tail(u / 0x40) && b[3] == Tail(u);
      assert u / 0x40 / 0x40 == u / 0x1000 && u / 0x1000 / 0x40 == u / 0x4_0000;
    }
  }

  lemma {:induction false} ShiftBack(u: nat, b: byte)
    requires Continues(b)
    ensures Shift(u, b) / 0x40 == u && Tail(Shift(u, b)) == b
  {
  }

  lemma {:induction false} DivTwice(u: nat)
    ensures u / 0x1000 == u / 0x40 / 0x40 && u / 0x4_0000 == u / 0x1000 / 0x40
  {
  }

  lemma {:induction false} EncodedOfTwo(b0: byte, b1: byte)
    requires 0xC0 <= b0 < 0xE0 && Continues(b1) && 0x80 <= Shift(b0 - 0xC0, b1)
    ensures Encode(Shift(b0 - 0xC0, b1) as char) == [b0, b1]
  {
    ShiftBack(b0 - 0xC0, b1);
    Range(b0 - 0xC0, b1);
    hide Shift, Tail;
  }

  lemma {:induction false} EncodedOfThree(b0: byte, b1: byte, b2: byte)
    requires 0xE0 <= b0 < 0xF0 && Continues(b1) && Continues(b2)
    requires var u := Shift(Shift(b0 - 0xE0, b1), b2); 0x800 <= u && Scalar(u)
    ensures Encode(Shift(Shift(b0 - 0xE0, b1), b2) as char) == [b0, b1, b2]
  {
    var v := Shift(b0 - 0xE0, b1);
    ShiftBack(b0 - 0xE0, b1);
    Range(b0 - 0xE0, b1);
    ShiftBack(v, b2);
    Range(v, b2);
    DivTwice(Shift(v, b2));
    hide Shift, Tail;
  }

  lemma {:induction false} EncodedOfFour(b0: byte, b1: byte, b2: byte, b3: byte)
    requires 0xF0 <= b0 < 0xF8 && Continues(b1) && Continues(b2) && Continues(b3)
    requires var u := Shift(Shift(Shift(b0 - 0xF0, b1), b2), b3); 0x1_0000 <= u && Scalar(u)
    ensures Encode(Shift(Shift(Shift(b0 - 0xF0, b1), b2), b3) as char) == [b0, b1, b2, b3]
  {
    var v := Shift(b0 - 0xF0, b1);
    var w := Shift(v, b2);
    ShiftBack(b0 - 0xF0, b1);
    ShiftBack(v, b2);
    ShiftBack(w, b3);
    DivTwice(Shift(w, b3));
    hide Shift, Tail;
  }

  lemma {:induction false} EncodedOfFirst(b: seq<byte>)
    requires DecodeFirst(b).Some?
    ensures Encode(DecodeFirst(b).value.0) == b[..DecodeFirst(b).value.1]
  {
    hide Encode, Shift, Scalar;
    var r := DecodeFirst(b).value;
    if r.1 == 1 {
      EncodedOfOne(b[0]);
    } else if r.1 == 2 {
      EncodedOfTwo(b[0], b[1]);
    } else if r.1 == 3 {
      EncodedOfThree(b[0], b[1], b[2]);
    } else {
      EncodedOfFour(b[0], b[1], b[2], b[3]);
    }
  }

  lemma {:induction false} EncodedOfOne(b0: byte)
    requires b0 < 0x80
    ensures Encode(b0 as char) == [b0]
  {
  }

  lemma {:induction false} Range(u: nat, b: byte)
    requires Continues(b)
    ensures u * 0x40 <= Shift(u, b) < u * 0x40 + 0x40
  {
  }

  /** Decoding inverts encoding, on every string. */
  lemma {:induction false} DecodeEncoded(s: string)
    ensures DecodeAll(EncodeAll(s)) == Some(s)
  {
    hide Encode, DecodeFirst;
    if s != [] {
      var rest := EncodeAll(s[1..]);
      var all := Encode(s[0]) + rest;
      FirstOfEncoded(s[0], rest);
      DecodeEncoded(s[1..]);
      assert EncodeAll(s) == all && DecodeAll(rest) == Some(s[1..]);
      assert all[|Encode(s[0])|..] == rest;
      assert [s[0]] + s[1..] == s;
    }
  }

  /** And encoding inverts decoding, wherever that succeeds: there is one encoding of each text. */
  lemma {:induction false} EncodeDecoded(b: seq<byte>)
    requires DecodeAll(b).Some?
    ensures EncodeAll(DecodeAll(b).value) == b
  {
    hide Encode, DecodeFirst;
    if b != [] {
      var first := DecodeFirst(b).value;
      EncodedOfFirst(b);
      EncodeDecoded(b[first.1..]);
      var rest := DecodeAll(b[first.1..]).value;
      assert ([first.0] + rest)[1..] == rest;
      assert b == b[..first.1] + b[first.1..];
    }
  }

  lemma {:induction false} EncodeConcat(s: string, t: string)
    ensures EncodeAll(s + t) == EncodeAll(s) + EncodeAll(t)
  {
    hide Encode;
    if s == [] {
      assert s + t == t;
    } else {
      assert (s + t)[1..] == s[1..] + t;
      EncodeConcat(s[1..], t);
    }
  }

  // ----- Character boundaries -----

  /** Position `i` of the octets of a text does not split a character: it is an end, or a character
      starts there. */
  predicate IsBoundary(b: seq<byte>, i: nat)
    requires i <= |b|
  {
    i == 0 || i == |b| || !Continues(b[i])
  }

  /** The most characters of `s` whose octets fit into `room`. */
  function Fitting(s: string, room: nat): (k: nat)
    ensures k <= |s|
  {
    if s == [] || |Encode(s[0])| > room then 0 else 1 + Fitting(s[1..], room - |Encode(s[0])|)
  }

  /** `cut` is the last boundary of `b` within `room`. */
  ghost predicate LastBoundary(b: seq<byte>, cut: nat, room: nat)
  {
    && cut <= |b| && cut <= room && IsBoundary(b, cut)
    && forall i | cut < i <= room && i <= |b| :: !IsBoundary(b, i)
  }

  /** The octets of one character. */
  ghost predicate OneCharacter(head: seq<byte>)
  {
    head != [] && !Continues(head[0]) && forall i | 1 <= i < |head| :: Continues(head[i])
  }

  ghost predicate StartsCharacter(rest: seq<byte>) { rest != [] ==> !Continues(rest[0]) }

  lemma {:induction false} BoundaryBehind(head: seq<byte>, rest: seq<byte>, cut: nat, room: nat)
    requires OneCharacter(head) && StartsCharacter(rest) && |head| <= room && LastBoundary(rest, cut, room - |head|)
    ensures LastBoundary(head + rest, |head| + cut, room)
  {
    var b := head + rest;
    forall i | |head| + cut < i <= room && i <= |b| ensures !IsBoundary(b, i) {
      assert !IsBoundary(rest, i - |head|);
    }
  }

  lemma {:induction false} NoBoundaryInside(head: seq<byte>, rest: seq<byte>, room: nat)
    requires OneCharacter(head) && |head| > room
    ensures LastBoundary(head + rest, 0, room)
  {
  }

  lemma {:induction false} EncodedIsCharacter(c: char)
    ensures OneCharacter(Encode(c))
  {
  }

  lemma {:induction false} EncodedStartsCharacter(s: string)
    ensures StartsCharacter(EncodeAll(s))
  {
    if s != [] {
      EncodedIsCharacter(s[0]);
      hide Encode;
      assert EncodeAll(s)[0] == Encode(s[0])[0];
    }
  }

  /** What fits ends at a boundary, and no later boundary fits. */
  lemma {:induction false} FittingIsLastBoundary(s: string, room: nat)
    ensures var b := EncodeAll(s);
            var cut := |EncodeAll(s[..Fitting(s, room)])|;
            && LastBoundary(b, cut, room) && b[..cut] == EncodeAll(s[..Fitting(s, room)])
            && (cut == |b| <==> Fitting(s, room) == |s|)
  {
    hide Encode, LastBoundary, OneCharacter, StartsCharacter;
    if s == [] {
      EmptyBoundary(room);
    } else {
      var head, rest := Encode(s[0]), EncodeAll(s[1..]);
      EncodedIsCharacter(s[0]);
      EncodedStartsCharacter(s[1..]);
      if |head| > room {
        NoBoundaryInside(head, rest, room);
      } else {
        var k := Fitting(s[1..], room - |head|);
        var inner := EncodeAll(s[1..][..k]);
        FittingIsLastBoundary(s[1..], room - |head|);
        BoundaryBehind(head, rest, |inner|, room);
        assert s[..1+k][0] == s[0] && s[..1+k][1..] == s[1..][..k];
        assert (head + rest)[..|head| + |inner|] == head + rest[..|inner|];
      }
    }
  }

  lemma {:induction false} EmptyBoundary(room: nat)
    ensures LastBoundary([], 0, room)
  {
  }
}

/** The fixed-capacity writer of the internal-error report: it never grows and never allocates. */
module FixedBuf {
  import opened Wrappers
  import opened Decimal
  import opened Utf8

  const U32_MAX: nat := 0xFFFF_FFFF

  class FixedBuf {
    var buf: array<byte>
    var len: nat
    var truncated: bool
    ghost var text: string

    /** What has been written is the UTF-8 form of a text, and fits. */
    ghost predicate Valid()
      reads this, buf
    {
      len <= buf.Length && buf[..len] == EncodeAll(text)
    }

    constructor (capacity: nat)
      ensures Valid() && fresh(buf) && buf.Length == capacity && text == [] && !truncated
    {
      buf := new byte[capacity](_ => 0);
      len, truncated := 0, false;
      text := [];
    }

    /** Appends as many whole characters as fit, and remembers when that was not all of them. */
    method PushStr(s: string)
      requires Valid()
      modifies this, buf
      ensures Valid() && buf == old(buf)
      ensures var k := Fitting(s, buf.Length - old(len));
              && text == old(text) + s[..k]
              && truncated == (old(truncated) || k < |s|)
    {
      var room := buf.Length - len;
      var bytes := EncodeAll(s);
      FittingIsLastBoundary(s, room);
      var cut := |bytes|;
      if |bytes| > room {
        cut := room;
        while cut > 0 && !IsBoundary(bytes, cut)
          invariant |EncodeAll(s[..Fitting(s, room)])| <= cut <= room
        {
          cut := cut - 1;
        }
        truncated := true;
      } else {
        AllFit(s, room);
      }
      EncodeConcat(text, s[..Fitting(s, room)]);
      text := text + s[..Fitting(s, room)];
      Copy(bytes[..cut]);
    }

    /** Copies octets behind what is there. */
    method Copy(bytes: seq<byte>)
      requires len + |bytes| <= buf.Length
      modifies this`len, buf
      ensures len == old(len) + |bytes| && buf[..len] == old(buf[..len]) + bytes
    {
      var start := len;
      for i := 0 to |bytes|
        invariant buf[..start] == old(buf[..len]) && buf[start..start + i] == bytes[..i]
      {
        buf[start + i] := bytes[i];
        assert bytes[..i+1] == bytes[..i] + [bytes[i]];
        assert buf[start..start + i + 1] == buf[start..start + i] + [bytes[i]];
      }
      len := start + |bytes|;
      assert buf[..len] == buf[..start] + buf[start..len];
    }

    /** Appends the canonical decimal form of a 32-bit number, or the digits of it that fit. */
    method PushU32(number: nat)
      requires Valid() && number <= U32_MAX
      modifies this, buf
      ensures Valid() && buf == old(buf)
      ensures var k := Fitting(Digits(number), buf.Length - old(len));
              && text == old(text) + Digits(number)[..k]
              && truncated == (old(truncated) || k < |Digits(number)|)
    {
      var digits := FormatU32(number);
      PushStr(digits);
    }

    method PushOne(p: Push)
      requires Valid() && (p.Number? ==> p.n <= U32_MAX)
      modifies this, buf
      ensures Valid() && buf == old(buf)
      ensures Grown(old(text), old(truncated), p, buf.Length, text, truncated)
    {
      match p {
        case Text(s) => PushStr(s);
        case Number(n) => PushU32(n);
      }
    }

    /** What was written, as text. The octets are always well formed. */
    method AsStr() returns (s: string)
      requires Valid()
      ensures s == text
    {
      DecodeEncoded(text);
      s := DecodeAll(buf[..len]).value;
    }
  }

  lemma {:induction false} AllFit(s: string, room: nat)
    requires |EncodeAll(s)| <= room
    ensures Fitting(s, room) == |s| && s[..Fitting(s, room)] == s
  {
    if s != [] {
      hide Encode;
      AllFit(s[1..], room - |Encode(s[0])|);
    }
  }

  // ----- Decimal digits -----

  function Ascii(s: string): (r: seq<byte>)
    requires AllDigits(s)
  {
    if s == [] then [] else [AsciiDigit(s[0])] + Ascii(s[1..])
  }

  function AsciiDigit(c: char): byte
    requires IsDigit(c)
  {
    c as int
  }

  lemma {:induction false} DigitsAreAscii(s: string)
    requires AllDigits(s)
    ensures Ascii(s) == EncodeAll(s)
  {
    if s != [] {
      DigitsAreAscii(s[1..]);
      assert s[0] in s;
      assert Encode(s[0]) == [AsciiDigit(s[0])];
    }
  }

  lemma {:induction false} TenDigitsSuffice(n: nat)
    requires n <= U32_MAX
    ensures |Digits(n)| <= 10
  {
    assert Pow10(5) == 100000;
    assert Pow10(7) == 100 * Pow10(5);
    assert Pow10(9) == 100 * Pow10(7);
    DigitsAreShort(n, 10);
  }

  lemma {:induction false} DigitsSplit(n: nat, done: string)
    requires AllDigits(done)
    ensures var more := [DigitChar(n % 10)] + done;
            && AllDigits(more) && Ascii(more) == [0x30 + n % 10] + Ascii(done)
            && Digits(n) + done == if n < 10 then more else Digits(n / 10) + more
  {
    var more := [DigitChar(n % 10)] + done;
    forall c | c in more ensures IsDigit(c) {
    }
    assert more[1..] == done;
    if n >= 10 {
      assert Digits(n / 10) + [DigitChar(n % 10)] + done == Digits(n / 10) + more;
    }
  }

  /** Fills a ten-octet scratch array from its end; ten octets are enough, and hold the canonical form. */
  method FormatU32(number: nat) returns (s: string)
    requires number <= U32_MAX
    ensures s == Digits(number) && |s| <= 10 && ValueOf(s) == number
  {
    TenDigitsSuffice(number);
    DigitsReadBack(number);
    hide Digits, Ascii, AllDigits, EncodeAll, DecodeAll, ValueOf, Pow10;
    var tmp := new byte[10];
    var i := 10;
    var n := number;
    ghost var done: string := [];
    NoDigits();
    while true
      invariant 0 < i <= 10 && |done| == 10 - i
      invariant AllDigits(done) && tmp[i..] == Ascii(done)
      invariant Digits(number) == Digits(n) + done
      decreases i
    {
      DigitsSplit(n, done);
      ghost var last := n < 10;
      i := i - 1;
      tmp[i] := 0x30 + n % 10;
      assert tmp[i..] == [tmp[i]] + tmp[i+1..];
      done := [DigitChar(n % 10)] + done;
      n := n / 10;
      if n == 0 {
        break;
      }
    }
    DigitsAreAscii(done);
    DecodeEncoded(done);
    s := DecodeAll(tmp[i..]).value;
  }

  lemma {:induction false} NoDigits()
    ensures AllDigits([]) && Ascii([]) == []
  {
  }

  // ----- Any sequence of pushes -----

  datatype Push = Text(s: string) | Number(n: nat)

  function Pushed(p: Push): string
  {
    match p case Text(s) => s case Number(n) => Digits(n)
  }

  /** Everything the pushes ask for. */
  function Wanted(ps: seq<Push>): string
  {
    if ps == [] then [] else Wanted(ps[..|ps|-1]) + Pushed(ps[|ps|-1])
  }

  /** What a buffer of the given capacity holds after them, and whether it was truncated. */
  function Held(ps: seq<Push>, capacity: nat): (r: (string, bool))
    ensures |EncodeAll(r.0)| <= capacity
  {
    if ps == [] then ([], false) else
    var before := Held(ps[..|ps|-1], capacity);
    var s := Pushed(ps[|ps|-1]);
    var room := capacity - |EncodeAll(before.0)|;
    var k := Fitting(s, room);
    FittingIsLastBoundary(s, room);
    EncodeConcat(before.0, s[..k]);
    (before.0 + s[..k], before.1 || k < |s|)
  }

  lemma {:induction false} HeldNext(ps: seq<Push>, p: Push, capacity: nat)
    ensures var before := Held(ps, capacity);
            var k := Fitting(Pushed(p), capacity - |EncodeAll(before.0)|);
            Held(ps + [p], capacity) == (before.0 + Pushed(p)[..k], before.1 || k < |Pushed(p)|)
    ensures Wanted(ps + [p]) == Wanted(ps) + Pushed(p)
  {
    hide Fitting, EncodeAll, Pushed;
    assert (ps + [p])[..|ps|] == ps;
  }

  ghost predicate Holding(text: string, truncated: bool, ps: seq<Push>, capacity: nat)
  {
    (text, truncated) == Held(ps, capacity)
  }

  /** One push: of what it asks for, what fits has been appended. */
  ghost predicate Grown(text: string, truncated: bool, p: Push, capacity: nat, text': string, truncated': bool)
  {
    |EncodeAll(text)| <= capacity &&
    var k := Fitting(Pushed(p), capacity - |EncodeAll(text)|);
    text' == text + Pushed(p)[..k] && truncated' == (truncated || k < |Pushed(p)|)
  }

  lemma {:induction false} HoldingNext(
      text: string, truncated: bool, ps: seq<Push>, i: nat, capacity: nat, text': string, truncated': bool)
    requires i < |ps| && Holding(text, truncated, ps[..i], capacity)
    requires Grown(text, truncated, ps[i], capacity, text', truncated')
    ensures Holding(text', truncated', ps[..i+1], capacity)
  {
    hide Fitting, EncodeAll, Pushed, Held;
    HeldNext(ps[..i], ps[i], capacity);
    assert ps[..i+1] == ps[..i] + [ps[i]];
  }

  /** Carries out a sequence of pushes on a new buffer. */
  method PushAll(ps: seq<Push>, capacity: nat) returns (b: FixedBuf)
    requires forall p | p in ps && p.Number? :: p.n <= U32_MAX
    ensures fresh(b) && fresh(b.buf) && b.Valid() && b.buf.Length == capacity
    ensures Holding(b.text, b.truncated, ps, capacity)
  {
    b := new FixedBuf(capacity);
    assert ps[..0] == [];
    assert Holding(b.text, b.truncated, ps[..0], capacity);
    hide *;
    ghost var buf := b.buf;
    for i := 0 to |ps|
      invariant b.buf == buf && b.Valid()
      invariant Holding(b.text, b.truncated, ps[..i], capacity)
    {
      ghost var text, truncated := b.text, b.truncated;
      var p := ps[i];
      assert p in ps;
      b.PushOne(p);
      HoldingNext(text, truncated, ps, i, capacity, b.text, b.truncated);
    }
    assert ps[..|ps|] == ps;
  }

  /** The flag is exact: it is set iff what was wanted does not fit, iff something was lost. */
  lemma {:induction false} TruncatedIffTooLong(ps: seq<Push>, capacity: nat)
    ensures Held(ps, capacity).1 <==> |EncodeAll(Wanted(ps))| > capacity
    ensures !Held(ps, capacity).1 <==> Held(ps, capacity).0 == Wanted(ps)
    ensures Held(ps, capacity).1 ==> |Held(ps, capacity).0| < |Wanted(ps)|
    ensures |Held(ps, capacity).0| <= |Wanted(ps)|
  {
    if ps != [] {
      var front := ps[..|ps|-1];
      var s := Pushed(ps[|ps|-1]);
      TruncatedIffTooLong(front, capacity);
      EncodeConcat(Wanted(front), s);
      var room := capacity - |EncodeAll(Held(front, capacity).0)|;
      FittingIsLastBoundary(s, room);
      if |EncodeAll(s)| <= room {
        AllFit(s, room);
      }
    }
  }

  function Room(ps: seq<Push>, capacity: nat): nat { capacity - |EncodeAll(Held(ps, capacity).0)| }

  /** After the first push that was cut, no push adds a character: each is empty, or its first character
      is too wide for what is left. */
  ghost predicate NothingLands(ps: seq<Push>, capacity: nat)
  {
    forall j | 0 <= j < |ps| && Held(ps[..j], capacity).1 :: Blocked(Pushed(ps[j]), Room(ps[..j], capacity))
  }

  predicate Blocked(s: string, room: nat) { s == [] || |Encode(s[0])| > room }

  /** The wanted character that follows what is held does not fit. */
  ghost predicate NextTooWide(held: string, wanted: string, room: nat)
  {
    |held| < |wanted| && |Encode(wanted[|held|])| > room
  }

  lemma {:induction false} FittingStops(s: string, room: nat)
    ensures Fitting(s, room) == 0 <==> Blocked(s, room)
    ensures |EncodeAll(s[..Fitting(s, room)])| <= room
    ensures Fitting(s, room) < |s| ==> |Encode(s[Fitting(s, room)])| > room - |EncodeAll(s[..Fitting(s, room)])|
  {
    FittingIsLastBoundary(s, room);
    if s != [] && |Encode(s[0])| <= room {
      var k := Fitting(s[1..], room - |Encode(s[0])|);
      FittingStops(s[1..], room - |Encode(s[0])|);
      assert s[..k+1][1..] == s[1..][..k];
    }
  }

  /** A push onto a text that is a beginning of what is wanted but was cut: it stays one exactly when
      nothing lands, since the character that is missing is wider than any that can still land. */
  lemma {:induction false} LandingBreaksPrefix(held: string, wanted: string, s: string, room: nat)
    requires held <= wanted && NextTooWide(held, wanted, room)
    ensures held + s[..Fitting(s, room)] <= wanted + s <==> Blocked(s, room)
  {
    var k := Fitting(s, room);
    FittingStops(s, room);
    if k > 0 {
      assert (held + s[..k])[|held|] == s[0] && (wanted + s)[|held|] == wanted[|held|];
    } else {
      assert held + s[..k] == held;
    }
  }

  lemma {:induction false} ShorterPrefix(held: string, wanted: string, more: string, s: string)
    requires held + more <= wanted + s && |held| <= |wanted|
    ensures held <= wanted
  {
    forall i | 0 <= i < |held| ensures held[i] == wanted[i] {
      assert (held + more)[i] == (wanted + s)[i];
    }
  }

  lemma {:induction false} NothingLandsStep(ps: seq<Push>, p: Push, capacity: nat)
    ensures NothingLands(ps + [p], capacity) <==>
              NothingLands(ps, capacity) && (Held(ps, capacity).1 ==> Blocked(Pushed(p), Room(ps, capacity)))
  {
    hide Held, Room, Blocked, Pushed;
    var all := ps + [p];
    forall j | 0 <= j <= |ps| ensures all[..j] == ps[..j] {
    }
    assert all[..|ps|] == ps && all[|ps|] == p;
    assert forall j | 0 <= j < |ps| :: all[j] == ps[j];
  }

  /** What is held is a beginning of what is wanted iff nothing has landed behind a gap, and then the
      next wanted character does not fit. */
  ghost predicate Standing(held: (string, bool), wanted: string, room: int, clean: bool)
  {
    && (held.0 <= wanted <==> clean)
    && (if held.1 then |held.0| < |wanted| else held.0 == wanted)
    && (held.0 <= wanted && held.1 ==> room >= 0 && NextTooWide(held.0, wanted, room))
  }

  lemma {:induction false} HeldStands(ps: seq<Push>, capacity: nat)
    ensures Standing(Held(ps, capacity), Wanted(ps), Room(ps, capacity), NothingLands(ps, capacity))
  {
    if ps == [] {
      NoPushes(capacity);
    } else {
      var front, p := ps[..|ps|-1], ps[|ps|-1];
      assert ps == front + [p];
      hide *;
      HeldStands(front, capacity);
      OneMoreStands(front, p, capacity);
    }
  }

  lemma {:induction false} OneMoreStands(ps: seq<Push>, p: Push, capacity: nat)
    requires Standing(Held(ps, capacity), Wanted(ps), Room(ps, capacity), NothingLands(ps, capacity))
    ensures var all := ps + [p];
            Standing(Held(all, capacity), Wanted(all), Room(all, capacity), NothingLands(all, capacity))
  {
    hide *;
    var s, room := Pushed(p), Room(ps, capacity);
    var k := Fitting(s, room);
    HeldNext(ps, p, capacity);
    RoomNext(ps, p, capacity);
    NothingLandsStep(ps, p, capacity);
    StandsAfter(Held(ps, capacity), Wanted(ps), room, NothingLands(ps, capacity), s);
  }

  lemma {:induction false} StandsAfter(held: (string, bool), wanted: string, room: nat, clean: bool, s: string)
    requires Standing(held, wanted, room, clean)
    ensures var k := Fitting(s, room);
            |EncodeAll(s[..k])| <= room &&
            Standing((held.0 + s[..k], held.1 || k < |s|), wanted + s, room - |EncodeAll(s[..k])|,
                     clean && (held.1 ==> Blocked(s, room)))
  {
    hide Fitting, EncodeAll, Encode, Blocked, NextTooWide;
    OnePushMore(held.0, wanted, held.1, s, room);
  }

  /** Truncation is not the end: what is pushed afterwards still lands if it is short enough. The text
      held is a beginning of the text wanted exactly when that never happens. */
  lemma {:induction false} HeldIsBeginningIff(ps: seq<Push>, capacity: nat)
    ensures Held(ps, capacity).0 <= Wanted(ps) <==> NothingLands(ps, capacity)
  {
    hide Held, Wanted, Room, NothingLands;
    HeldStands(ps, capacity);
  }

  lemma {:induction false} NoPushes(capacity: nat)
    ensures Held([], capacity) == ([], false) && Wanted([]) == [] && NothingLands([], capacity)
  {
  }

  lemma {:induction false} RoomNext(ps: seq<Push>, p: Push, capacity: nat)
    ensures var s, room := Pushed(p), Room(ps, capacity);
            |EncodeAll(s[..Fitting(s, room)])| <= room &&
            Room(ps + [p], capacity) == room - |EncodeAll(s[..Fitting(s, room)])|
    ensures Fitting(Pushed(p), Room(ps, capacity)) == Fitting(Pushed(p), capacity - |EncodeAll(Held(ps, capacity).0)|)
  {
    var s, room := Pushed(p), Room(ps, capacity);
    FittingStops(s, room);
    HeldNext(ps, p, capacity);
    hide Held, Fitting, EncodeAll, Pushed;
    EncodeConcat(Held(ps, capacity).0, s[..Fitting(s, room)]);
  }

  /** How one push changes whether what is held is a beginning of what is wanted. */
  lemma {:induction false} OnePushMore(held: string, wanted: string, cut: bool, s: string, room: nat)
    requires if cut then |held| < |wanted| else held == wanted
    requires held <= wanted && cut ==> NextTooWide(held, wanted, room)
    ensures var k := Fitting(s, room);
            && |EncodeAll(s[..k])| <= room
            && (held + s[..k] <= wanted + s <==> held <= wanted && (cut ==> Blocked(s, room)))
            && (held + s[..k] <= wanted + s && (cut || k < |s|) ==>
                  NextTooWide(held + s[..k], wanted + s, room - |EncodeAll(s[..k])|))
  {
    hide Fitting, EncodeAll, Encode;
    var k := Fitting(s, room);
    FittingStops(s, room);
    if !cut {
      assert (wanted + s)[..|wanted| + k] == wanted + s[..k];
    } else if held <= wanted {
      LandingBreaksPrefix(held, wanted, s, room);
      if k == 0 {
        assert held + s[..0] == held;
        NoOctets(s);
      }
    } else if held + s[..k] <= wanted + s {
      ShorterPrefix(held, wanted, s[..k], s);
    }
  }

  lemma {:induction false} NoOctets(s: string)
    ensures |EncodeAll(s[..0])| == 0
  {
  }

  /** For instance after a wide character was cut, a narrow one lands behind the gap. */
  lemma {:induction false} GapAfterTruncation(wide: char, narrow: char)
    requires |Encode(wide)| == 3 && |Encode(narrow)| == 1
    ensures var ps := [Text([wide, wide]), Text([narrow])];
            Held(ps, 5) == ([wide, narrow], true) && Wanted(ps) == [wide, wide, narrow]
  {
    hide Encode;
    var ps := [Text([wide, wide])];
    HeldNext([], ps[0], 5);
    HeldNext(ps, Text([narrow]), 5);
    assert [wide, wide][1..] == [wide] && [narrow][1..] == [] && [wide][1..] == [];
    assert Fitting([wide], 2) == 0;
    assert Fitting([wide, wide], 5) == 1;
    assert [wide, wide][..1] == [wide];
    assert EncodeAll([wide]) == Encode(wide);
    assert Fitting([narrow], 2) == 1 && [narrow][..1] == [narrow];
    assert [] + ps == ps && ps + [Text([narrow])] == [Text([wide, wide]), Text([narrow])];
    assert Held([], 5) == ([], false) && Wanted([]) == [];
    assert Held(ps, 5) == ([] + [wide], true);
    assert [] + [wide] + [narrow] == [wide, narrow];
  }
}
