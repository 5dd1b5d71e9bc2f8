/** What text a database driver can store.  A char is one byte of a Go string. */
module Encoding {
  datatype Driver = Sqlite | Postgres

  predicate IsContinuation(c: char) {
    '\U{80}' <= c <= '\U{BF}'
  }

  /** The number of bytes of the character that begins the text in UTF-8 (section 4 of RFC 3629); 0
      when none does. */
  function CharLength(s: string): (n: nat)
    ensures n <= |s| && n <= 4
    ensures n > 0 ==> !IsContinuation(s[0]) && forall i | 0 < i < n :: IsContinuation(s[i])
  {
    if s == "" then 0
    else if s[0] < '\U{80}' then 1
    else if '\U{C2}' <= s[0] <= '\U{DF}' && |s| >= 2 && IsContinuation(s[1]) then 2
    else if '\U{E0}' <= s[0] <= '\U{EF}' && |s| >= 3 && IsSecond(s[0], s[1]) && IsContinuation(s[2]) then 3
    else if '\U{F0}' <= s[0] <= '\U{F4}' && |s| >= 4 && IsSecond(s[0], s[1]) && IsContinuation(s[2])
            && IsContinuation(s[3]) then 4
    else 0
  }

  /** The second byte of a character of three or four bytes: no longer form than needed, no surrogate,
      nothing above U+10FFFF. */
  predicate IsSecond(first: char, second: char) {
    && IsContinuation(second)
    && (first == '\U{E0}' ==> second >= '\U{A0}')
    && (first == '\U{ED}' ==> second <= '\U{9F}')
    && (first == '\U{F0}' ==> second >= '\U{90}')
    && (first == '\U{F4}' ==> second <= '\U{8F}')
  }

  predicate IsUtf8(s: string) {
    s == "" || (CharLength(s) > 0 && IsUtf8(s[CharLength(s)..]))
  }

  /** SQLite stores any bytes; Postgres refuses a zero byte and what is not UTF-8. */
  predicate StorableText(driver: Driver, s: string) {
    driver == Sqlite || ('\U{0}' !in s && IsUtf8(s))
  }

  // ---------------------------------------------------------------------------------------
  // The texts that are UTF-8
  // ---------------------------------------------------------------------------------------

  /** A code point that is no surrogate. */
  predicate IsScalar(p: nat) {
    p < 0xD800 || 0xE000 <= p < 0x11_0000
  }

  function Byte(n: nat): char
    requires n < 256
  {
    n as char
  }

  /** The form of a code point in section 3 of RFC 3629: the shortest of the four. */
  function EncodedChar(p: nat): (s: string)
    requires IsScalar(p)
    ensures 1 <= |s| <= 4
  {
    if p < 0x80 then [Byte(p)]
    else if p < 0x800 then [Byte(0xC0 + p / 64), Byte(0x80 + p % 64)]
    else if p < 0x1_0000 then [Byte(0xE0 + p / 4096), Byte(0x80 + p / 64 % 64), Byte(0x80 + p % 64)]
    else [Byte(0xF0 + p / 262_144), Byte(0x80 + p / 4096 % 64), Byte(0x80 + p / 64 % 64), Byte(0x80 + p % 64)]
  }

  function EncodedText(points: seq<nat>): string
    requires forall i | 0 <= i < |points| :: IsScalar(points[i])
  {
    if points == [] then "" else EncodedChar(points[0]) + EncodedText(points[1..])
  }

  lemma LongerText(c: string, rest: string)
    requires CharLength(c) == |c| > 0
    ensures CharLength(c + rest) == |c|
  {
  }

  lemma LengthOfTwo(a: nat, b: nat)
    requires 2 <= a < 32 && b < 64
    ensures CharLength([Byte(0xC0 + a), Byte(0x80 + b)]) == 2
  {
  }

  lemma LengthOfThree(a: nat, b: nat, c: nat)
    requires a < 16 && b < 64 && c < 64 && (a == 0 ==> b >= 32) && (a == 13 ==> b < 32)
    ensures CharLength([Byte(0xE0 + a), Byte(0x80 + b), Byte(0x80 + c)]) == 3
  {
  }

  lemma LengthOfFour(a: nat, b: nat, c: nat, d: nat)
    requires a < 5 && b < 64 && c < 64 && d < 64 && (a == 0 ==> b >= 16) && (a == 4 ==> b < 16)
    ensures CharLength([Byte(0xF0 + a), Byte(0x80 + b), Byte(0x80 + c), Byte(0x80 + d)]) == 4
  {
  }

  /** The six bits after the highest of a code point. */
  lemma HighBits(p: nat)
    ensures p / 4096 == p / 64 / 64 && p / 262_144 == p / 64 / 64 / 64
  {
  }

  lemma EncodedAlone(p: nat)
    requires IsScalar(p)
    ensures CharLength(EncodedChar(p)) == |EncodedChar(p)|
  {
    hide CharLength;
    HighBits(p);
    var low, mid, high := p / 64, p / 64 / 64, p / 64 / 64 / 64;
    if p < 0x80 {
      LengthOfOne(p);
    } else if p < 0x800 {
      LengthOfTwo(low, p % 64);
    } else if p < 0x1_0000 {
      LengthOfThree(mid, low % 64, p % 64);
    } else {
      LengthOfFour(high, mid % 64, low % 64, p % 64);
    }
  }

  lemma LengthOfOne(a: nat)
    requires a < 128
    ensures CharLength([Byte(a)]) == 1
  {
  }

  lemma EncodedIsCharacter(p: nat, rest: string)
    requires IsScalar(p)
    ensures CharLength(EncodedChar(p) + rest) == |EncodedChar(p)|
  {
    EncodedAlone(p);
    LongerText(EncodedChar(p), rest);
  }

  /** The value of a text of continuation bytes after `high`. */
  lemma SixBits(high: nat, low: nat)
    requires low < 64
    ensures (high * 64 + low) / 64 == high && (high * 64 + low) % 64 == low
  {
  }

  lemma TwoBytes(a: nat, b: nat) returns (p: nat)
    requires 2 <= a < 32 && b < 64
    ensures IsScalar(p) && EncodedChar(p) == [Byte(0xC0 + a), Byte(0x80 + b)]
  {
    p := a * 64 + b;
    SixBits(a, b);
  }

  lemma ThreeBytes(a: nat, b: nat, c: nat) returns (p: nat)
    requires a < 16 && b < 64 && c < 64 && (a == 0 ==> b >= 32) && (a == 13 ==> b < 32)
    ensures IsScalar(p) && EncodedChar(p) == [Byte(0xE0 + a), Byte(0x80 + b), Byte(0x80 + c)]
  {
    p := (a * 64 + b) * 64 + c;
    SixBits(a, b);
    SixBits(a * 64 + b, c);
    assert p / 4096 == a;
  }

  lemma FourBytes(a: nat, b: nat, c: nat, d: nat) returns (p: nat)
    requires a < 5 && b < 64 && c < 64 && d < 64 && (a == 0 ==> b >= 16) && (a == 4 ==> b < 16)
    ensures IsScalar(p)
    ensures EncodedChar(p) == [Byte(0xF0 + a), Byte(0x80 + b), Byte(0x80 + c), Byte(0x80 + d)]
  {
    p := ((a * 64 + b) * 64 + c) * 64 + d;
    SixBits(a, b);
    SixBits(a * 64 + b, c);
    SixBits((a * 64 + b) * 64 + c, d);
    assert p / 4096 == a * 64 + b && p / 262_144 == a;
  }

  lemma CharacterIsEncoded(s: string) returns (p: nat)
    requires CharLength(s) > 0
    ensures IsScalar(p) && EncodedChar(p) == s[..CharLength(s)]
  {
    hide IsScalar;
    hide EncodedChar;
    var k, b := CharLength(s), s[0] as nat;
    if k == 1 {
      p := OneByte(b);
      assert s[..1] == [Byte(b)];
    } else if k == 2 {
      p := TwoBytes(b - 0xC0, s[1] as nat - 0x80);
      assert s[..2] == [s[0], s[1]];
    } else if k == 3 {
      p := ThreeBytes(b - 0xE0, s[1] as nat - 0x80, s[2] as nat - 0x80);
      assert s[..3] == [s[0], s[1], s[2]];
    } else {
      p := FourBytes(b - 0xF0, s[1] as nat - 0x80, s[2] as nat - 0x80, s[3] as nat - 0x80);
      assert s[..4] == [s[0], s[1], s[2], s[3]];
    }
  }

  lemma OneByte(b: nat) returns (p: nat)
    requires b < 128
    ensures IsScalar(p) && EncodedChar(p) == [Byte(b)]
  {
    p := b;
  }

  ghost predicate Encodes(points: seq<nat>, s: string) {
    (forall i | 0 <= i < |points| :: IsScalar(points[i])) && EncodedText(points) == s
  }

  /** A text is UTF-8 exactly when it is the encoding of some code points. */
  lemma {:induction false} Utf8Iff(s: string)
    ensures IsUtf8(s) <==> exists points :: Encodes(points, s)
  {
    if IsUtf8(s) {
      var points := PointsOf(s);
    }
    if points :| Encodes(points, s) {
      EncodedIsUtf8(points);
    }
  }

  lemma {:induction false} PointsOf(s: string) returns (points: seq<nat>)
    requires IsUtf8(s)
    ensures Encodes(points, s)
  {
    points := [];
    if s != "" {
      var k := CharLength(s);
      var p := CharacterIsEncoded(s);
      var rest := PointsOf(s[k..]);
      points := [p] + rest;
      assert points[1..] == rest && s == s[..k] + s[k..];
    }
  }

  lemma {:induction false} EncodedIsUtf8(points: seq<nat>)
    requires forall i | 0 <= i < |points| :: IsScalar(points[i])
    ensures IsUtf8(EncodedText(points))
  {
    if points != [] {
      var rest := EncodedText(points[1..]);
      EncodedIsUtf8(points[1..]);
      EncodedIsCharacter(points[0], rest);
      assert (EncodedChar(points[0]) + rest)[|EncodedChar(points[0])|..] == rest;
    }
  }

  lemma ZeroIsEncoded(p: nat)
    requires IsScalar(p)
    ensures '\U{0}' in EncodedChar(p) <==> p == 0
  {
  }

  lemma {:induction false} ZeroInText(points: seq<nat>)
    requires forall i | 0 <= i < |points| :: IsScalar(points[i])
    ensures '\U{0}' in EncodedText(points) <==> 0 in points
  {
    hide IsScalar;
    hide EncodedChar;
    if points != [] {
      ZeroIsEncoded(points[0]);
      ZeroInText(points[1..]);
      assert points == [points[0]] + points[1..];
    }
  }

  /** Postgres takes exactly the encodings of code points other than zero. */
  lemma StorableIff(s: string)
    ensures StorableText(Postgres, s) <==> exists points :: Encodes(points, s) && 0 !in points
    ensures StorableText(Sqlite, s)
  {
    Utf8Iff(s);
    hide IsUtf8;
    forall points | Encodes(points, s) ensures '\U{0}' in s <==> 0 in points {
      ZeroInText(points);
    }
  }

  // ---------------------------------------------------------------------------------------
  // Cutting a text
  // ---------------------------------------------------------------------------------------

  /** The character at the start is the same in a beginning that holds all its bytes, and is lost in one
      that does not. */
  lemma CharLengthOfPrefix(s: string, n: nat)
    requires 0 < n <= |s| && CharLength(s) > 0
    ensures CharLength(s[..n]) == if n >= CharLength(s) then CharLength(s) else 0
  {
  }

  /** A beginning of a valid text is valid exactly when the cut does not split a character: the byte after
      it is not a continuation byte. */
  lemma {:induction false} CutIff(s: string, n: nat)
    requires IsUtf8(s) && n <= |s|
    ensures IsUtf8(s[..n]) <==> n == |s| || !IsContinuation(s[n])
  {
    var k := CharLength(s);
    if n > 0 {
      CharLengthOfPrefix(s, n);
      if n >= k {
        CutIff(s[k..], n - k);
        assert s[..n][k..] == s[k..][..n - k];
      } else {
        assert s[..n] != "";
      }
    }
  }

  lemma CutStorableIff(s: string, n: nat)
    requires StorableText(Postgres, s) && n <= |s|
    ensures StorableText(Postgres, s[..n]) <==> n == |s| || !IsContinuation(s[n])
  {
    CutIff(s, n);
  }
}
