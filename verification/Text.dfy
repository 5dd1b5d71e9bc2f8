/** The string functions of the standard library that the origin code calls.  A char is a code point. */
module Text {
  const NEWLINE: char := '\n'

  /** White space as the library's TrimSpace sees it. */
  predicate IsSpace(c: char) {
    || '\t' <= c <= '\r' || c == ' ' || c == '\U{85}' || c == '\U{A0}' || c == '\U{1680}'
    || '\U{2000}' <= c <= '\U{200A}' || c == '\U{2028}' || c == '\U{2029}' || c == '\U{202F}'
    || c == '\U{205F}' || c == '\U{3000}'
  }

  /** The code points with the property White_Space. */
  lemma SpacesAre(c: char)
    ensures IsSpace(c) <==>
            c as int in {9, 10, 11, 12, 13, 32, 133, 160, 5760, 8192, 8193, 8194, 8195, 8196, 8197, 8198, 8199, 8200,
                         8201, 8202, 8232, 8233, 8239, 8287, 12288}
  {
  }

  function TrimLeft(s: string): string {
    if s != "" && IsSpace(s[0]) then TrimLeft(s[1..]) else s
  }

  function TrimRight(s: string): (r: string)
    ensures r <= s
    ensures r != "" ==> !IsSpace(r[|r| - 1])
    ensures r == s <==> s == "" || !IsSpace(s[|s| - 1])
  {
    if s != "" && IsSpace(s[|s| - 1]) then TrimRight(s[..|s| - 1]) else s
  }

  function Trim(s: string): string {
    TrimRight(TrimLeft(s))
  }

  function Split(s: string, sep: char): (parts: seq<string>)
    ensures parts != []
  {
    if s == "" then [""]
    else
      var rest := Split(s[1..], sep);
      if s[0] == sep then [""] + rest else [[s[0]] + rest[0]] + rest[1..]
  }

  function Join(parts: seq<string>, sep: char): string {
    if parts == [] then ""
    else if |parts| == 1 then parts[0]
    else parts[0] + [sep] + Join(parts[1..], sep)
  }

  // ---------------------------------------------------------------------------------------
  // Trimming
  // ---------------------------------------------------------------------------------------

  lemma {:induction false} TrimLeftSnoc(s: string, c: char)
    ensures TrimLeft(s + [c]) == if TrimLeft(s) == "" then TrimLeft([c]) else TrimLeft(s) + [c]
  {
    hide IsSpace;
    if s == "" {
      assert s + [c] == [c];
    } else {
      assert (s + [c])[1..] == s[1..] + [c];
      TrimLeftSnoc(s[1..], c);
    }
  }

  /** Trimming ignores white space added at either end. */
  lemma TrimSnoc(s: string, c: char)
    requires IsSpace(c)
    ensures Trim(s + [c]) == Trim(s)
  {
    hide IsSpace;
    TrimLeftSnoc(s, c);
    var t := TrimLeft(s);
    assert [c][1..] == "";
    if t != "" {
      assert (t + [c])[..|t + [c]| - 1] == t;
    }
  }

  lemma TrimCons(c: char, s: string)
    requires IsSpace(c)
    ensures Trim([c] + s) == Trim(s)
  {
    assert ([c] + s)[1..] == s;
  }

  lemma {:induction false} TrimLeftStart(s: string)
    ensures TrimLeft(s) != "" ==> !IsSpace(TrimLeft(s)[0])
    ensures |TrimLeft(s)| <= |s| && TrimLeft(s) == s[|s| - |TrimLeft(s)|..]
  {
    if s != "" && IsSpace(s[0]) {
      TrimLeftStart(s[1..]);
    }
  }

  /** The result has no white space at either end, so trimming again changes nothing. */
  lemma TrimIsTrimmed(s: string)
    ensures Trim(Trim(s)) == Trim(s)
    ensures forall c | c in Trim(s) :: c in s
  {
    TrimLeftStart(s);
    var t := Trim(s);
    if t != "" {
      assert t[0] == TrimLeft(s)[0];
    }
  }

  lemma TrimmedIff(s: string)
    ensures Trim(s) == s <==> s == "" || (!IsSpace(s[0]) && !IsSpace(s[|s| - 1]))
  {
    TrimLeftStart(s);
  }

  /** Text that ends in a visible character stops the trimming from the right. */
  lemma {:induction false} TrimRightAfter(a: string, s: string)
    requires a != "" && !IsSpace(a[|a| - 1])
    ensures TrimRight(a + s) == a + TrimRight(s)
  {
    hide IsSpace;
    if s == "" {
      assert a + s == a;
    } else {
      assert (a + s)[..|a + s| - 1] == a + s[..|s| - 1];
      if IsSpace(s[|s| - 1]) {
        TrimRightAfter(a, s[..|s| - 1]);
      }
    }
  }

  // ---------------------------------------------------------------------------------------
  // Splitting
  // ---------------------------------------------------------------------------------------

  lemma {:induction false} SplitAppend(a: string, sep: char, b: string)
    ensures Split(a + [sep] + b, sep) == Split(a, sep) + Split(b, sep)
  {
    if a == "" {
      assert (a + [sep] + b)[1..] == b;
    } else {
      assert (a + [sep] + b)[1..] == a[1..] + [sep] + b;
      SplitAppend(a[1..], sep, b);
    }
  }

  lemma {:induction false} SplitSnoc(s: string, sep: char, c: char)
    requires c != sep
    ensures var parts := Split(s, sep);
            Split(s + [c], sep) == parts[..|parts| - 1] + [parts[|parts| - 1] + [c]]
  {
    if s == "" {
      assert s + [c] == [c];
      SplitNone([c], sep);
      assert Split(s, sep) == [""] && "" + [c] == [c];
    } else {
      assert (s + [c])[1..] == s[1..] + [c];
      SplitSnoc(s[1..], sep, c);
      var rest, more, parts := Split(s[1..], sep), Split(s[1..] + [c], sep), Split(s, sep);
      hide Split;
      var last := |rest| - 1;
      if s[0] == sep {
        assert parts[..|rest|] == [""] + rest[..last];
        assert [""] + rest[..last] + [rest[last] + [c]] == [""] + more;
      } else if last == 0 {
        assert more[1..] == [] && parts == [[s[0]] + rest[0]];
        assert [s[0]] + (rest[0] + [c]) == [s[0]] + rest[0] + [c];
      } else {
        assert more[0] == rest[0] && more[1..] == rest[1..last] + [rest[last] + [c]];
        assert parts[..last] == [[s[0]] + rest[0]] + rest[1..last];
      }
    }
  }

  lemma {:induction false} SplitNone(s: string, sep: char)
    requires sep !in s
    ensures Split(s, sep) == [s]
  {
    if s != "" {
      SplitNone(s[1..], sep);
      assert [s[0]] + s[1..] == s;
    }
  }

  lemma {:induction false} PartsLackSeparator(s: string, sep: char)
    ensures forall part | part in Split(s, sep) :: sep !in part
  {
    if s != "" {
      PartsLackSeparator(s[1..], sep);
      var rest := Split(s[1..], sep);
      forall part | part in Split(s, sep) ensures sep !in part {
        if s[0] != sep && part == [s[0]] + rest[0] {
          assert rest[0] in rest;
        } else if s[0] != sep {
          assert part in rest[1..];
          assert part in rest;
        }
      }
    }
  }

  // ---------------------------------------------------------------------------------------
  // Searching
  // ---------------------------------------------------------------------------------------

  predicate HasPrefix(s: string, p: string) {
    p <= s
  }

  predicate HasSuffix(s: string, p: string) {
    |p| <= |s| && s[|s| - |p|..] == p
  }

  function TrimPrefix(s: string, p: string): string {
    if p <= s then s[|p|..] else s
  }

  /** The first position at which `p` occurs, or -1. */
  function Find(s: string, p: string): (i: int)
    ensures -1 <= i <= |s|
    ensures i >= 0 ==> p <= s[i..]
    ensures forall j | 0 <= j <= |s| && (i < 0 || j < i) :: !(p <= s[j..])
  {
    if p <= s then 0
    else if s == "" then -1
    else
      var rest := Find(s[1..], p);
      assert forall j | 1 <= j <= |s| :: s[j..] == s[1..][j - 1..];
      if rest < 0 then -1 else rest + 1
  }

  predicate Contains(s: string, p: string) {
    Find(s, p) >= 0
  }

  /** The text before the first `c`, and what follows it. */
  function Before(s: string, c: char): (r: string)
    ensures r <= s && c !in r
    ensures |r| < |s| ==> s[|r|] == c
  {
    if s == "" || s[0] == c then "" else [s[0]] + Before(s[1..], c)
  }

  function AfterFirst(s: string, c: char): string {
    var before := Before(s, c);
    if |before| < |s| then s[|before| + 1..] else ""
  }

  lemma {:induction false} BeforeIs(a: string, c: char, b: string)
    requires c !in a && (b == "" || b[0] == c)
    ensures Before(a + b, c) == a
  {
    if a == "" {
      assert a + b == b;
    } else {
      assert (a + b)[1..] == a[1..] + b;
      BeforeIs(a[1..], c, b);
    }
  }

  /** The text after the last `c`, or all of it. */
  function AfterLast(s: string, c: char): (r: string)
    ensures c !in r
    ensures |r| <= |s| && r == s[|s| - |r|..]
    ensures c !in s ==> r == s
  {
    if s == "" then ""
    else if c in s[1..] then AfterLast(s[1..], c)
    else if s[0] == c then s[1..] else s
  }
}
