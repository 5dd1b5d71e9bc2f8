/** How a list of origins is stored in one text column and read back. */
module OriginCodec {
  import opened Text

  /** The entries, trimmed, without the blank ones. */
  function Clean(entries: seq<string>): seq<string> {
    if entries == [] then []
    else
      var entry := Trim(entries[0]);
      (if entry == "" then [] else [entry]) + Clean(entries[1..])
  }

  function Encode(origins: seq<string>): string {
    Join(Clean(origins), NEWLINE)
  }

  function Decode(s: string): seq<string> {
    Clean(Split(s, NEWLINE))
  }

  lemma {:induction false} CleanAppend(a: seq<string>, b: seq<string>)
    ensures Clean(a + b) == Clean(a) + Clean(b)
  {
    hide Trim;
    if a == [] {
      assert a + b == b;
    } else {
      assert (a + b)[1..] == a[1..] + b;
      CleanAppend(a[1..], b);
    }
  }

  lemma CleanSnoc(a: seq<string>, entry: string)
    ensures Clean(a + [entry]) == Clean(a) + (if Trim(entry) == "" then [] else [Trim(entry)])
  {
    CleanAppend(a, [entry]);
    assert [entry][1..] == [];
  }

  method EncodeOrigins(origins: seq<string>) returns (s: string)
    ensures s == Encode(origins)
  {
    if |origins| == 0 {
      return "";
    }
    var cleaned := [];
    var i := 0;
    while i < |origins|
      invariant 0 <= i <= |origins|
      invariant cleaned == Clean(origins[..i])
    {
      CleanSnoc(origins[..i], origins[i]);
      assert origins[..i + 1] == origins[..i] + [origins[i]];
      var o := Trim(origins[i]);
      if o != "" {
        cleaned := cleaned + [o];
      }
      i := i + 1;
    }
    assert origins[..i] == origins;
    return Join(cleaned, NEWLINE);
  }

  method DecodeOrigins(s: string) returns (origins: seq<string>)
    ensures origins == Decode(s)
  {
    if s == "" {
      assert Trim("") == "" && [""][1..] == [];
      return [];
    }
    var parts := Split(s, NEWLINE);
    origins := [];
    var i := 0;
    while i < |parts|
      invariant 0 <= i <= |parts|
      invariant origins == Clean(parts[..i])
    {
      CleanSnoc(parts[..i], parts[i]);
      assert parts[..i + 1] == parts[..i] + [parts[i]];
      var p := Trim(parts[i]);
      if p != "" {
        origins := origins + [p];
      }
      i := i + 1;
    }
    assert parts[..i] == parts;
  }

  // ---------------------------------------------------------------------------------------
  // Decoding ignores white space around an entry
  // ---------------------------------------------------------------------------------------

  lemma DecodeEmpty()
    ensures Decode("") == []
  {
    assert [""][1..] == [];
  }

  lemma DecodeCons(c: char, s: string)
    requires IsSpace(c)
    ensures Decode([c] + s) == Decode(s)
  {
    var rest := Split(s, NEWLINE);
    assert ([c] + s)[1..] == s;
    if c == NEWLINE {
      assert ([""] + rest)[1..] == rest;
    } else {
      TrimCons(c, rest[0]);
      assert Split([c] + s, NEWLINE)[1..] == rest[1..];
    }
  }

  lemma DecodeSnoc(s: string, c: char)
    requires IsSpace(c)
    ensures Decode(s + [c]) == Decode(s)
  {
    var parts := Split(s, NEWLINE);
    if c == NEWLINE {
      SplitAppend(s, NEWLINE, "");
      assert s + [NEWLINE] + "" == s + [NEWLINE];
      CleanSnoc(parts, "");
    } else {
      SplitSnoc(s, NEWLINE, c);
      var last := parts[|parts| - 1];
      assert parts == parts[..|parts| - 1] + [last];
      CleanSnoc(parts[..|parts| - 1], last + [c]);
      CleanSnoc(parts[..|parts| - 1], last);
      TrimSnoc(last, c);
    }
  }

  lemma {:induction false} DecodeTrimLeft(s: string)
    ensures Decode(TrimLeft(s)) == Decode(s)
  {
    if s != "" && IsSpace(s[0]) {
      DecodeTrimLeft(s[1..]);
      DecodeCons(s[0], s[1..]);
      assert s == [s[0]] + s[1..];
    }
  }

  lemma {:induction false} DecodeTrimRight(s: string)
    ensures Decode(TrimRight(s)) == Decode(s)
  {
    if s != "" && IsSpace(s[|s| - 1]) {
      DecodeTrimRight(s[..|s| - 1]);
      DecodeSnoc(s[..|s| - 1], s[|s| - 1]);
      assert s == s[..|s| - 1] + [s[|s| - 1]];
    }
  }

  lemma DecodeTrim(s: string)
    ensures Decode(Trim(s)) == Decode(s)
  {
    DecodeTrimLeft(s);
    DecodeTrimRight(TrimLeft(s));
  }

  // ---------------------------------------------------------------------------------------
  // Laws of the codec
  // ---------------------------------------------------------------------------------------

  /** The concatenation of the decodings of the entries. */
  function DecodeAll(origins: seq<string>): seq<string> {
    if origins == [] then [] else Decode(origins[0]) + DecodeAll(origins[1..])
  }

  lemma {:induction false} DecodeJoin(parts: seq<string>)
    ensures Decode(Join(parts, NEWLINE)) == DecodeAll(parts)
  {
    if parts == [] {
      DecodeEmpty();
    } else if |parts| == 1 {
      assert parts[1..] == [];
    } else {
      DecodeJoin(parts[1..]);
      SplitAppend(parts[0], NEWLINE, Join(parts[1..], NEWLINE));
      CleanAppend(Split(parts[0], NEWLINE), Split(Join(parts[1..], NEWLINE), NEWLINE));
    }
  }

  lemma {:induction false} DecodeAllClean(origins: seq<string>)
    ensures DecodeAll(Clean(origins)) == DecodeAll(origins)
  {
    hide Decode;
    hide Trim;
    if origins != [] {
      DecodeAllClean(origins[1..]);
      DecodeTrim(origins[0]);
      if Trim(origins[0]) == "" {
        DecodeEmpty();
        assert Clean(origins) == Clean(origins[1..]);
      } else {
        assert Clean(origins)[1..] == Clean(origins[1..]);
      }
    }
  }

  /** For every list of strings, storing it and reading it back yields the decodings of its entries,
      one after the other. */
  lemma DecodeEncode(origins: seq<string>)
    ensures Decode(Encode(origins)) == DecodeAll(origins)
  {
    DecodeJoin(Clean(origins));
    DecodeAllClean(origins);
  }

  /** An entry that the codec stores as it is. */
  predicate Storable(origin: string) {
    origin != "" && Trim(origin) == origin && NEWLINE !in origin
  }

  lemma DecodeStorable(origin: string)
    requires Storable(origin)
    ensures Decode(origin) == [origin]
  {
    SplitNone(origin, NEWLINE);
    CleanSnoc([], origin);
    assert [] + [origin] == [origin];
  }

  lemma {:induction false} CleanIsStorable(parts: seq<string>)
    requires forall part | part in parts :: NEWLINE !in part
    ensures forall entry | entry in Clean(parts) :: Storable(entry)
  {
    if parts != [] {
      CleanIsStorable(parts[1..]);
      TrimIsTrimmed(parts[0]);
    }
  }

  lemma DecodedIsStorable(s: string)
    ensures forall entry | entry in Decode(s) :: Storable(entry)
  {
    PartsLackSeparator(s, NEWLINE);
    CleanIsStorable(Split(s, NEWLINE));
  }

  lemma {:induction false} DecodeAllStorable(origins: seq<string>)
    requires forall o | o in origins :: Storable(o)
    ensures DecodeAll(origins) == origins
  {
    hide Storable;
    hide Decode;
    if origins != [] {
      DecodeStorable(origins[0]);
      DecodeAllStorable(origins[1..]);
      assert [origins[0]] + origins[1..] == origins;
    }
  }

  /** A list survives storage unchanged exactly when its entries are nonblank, trimmed and free of
      newlines. */
  lemma RoundTripIff(origins: seq<string>)
    ensures Decode(Encode(origins)) == origins <==> forall o | o in origins :: Storable(o)
  {
    if forall o | o in origins :: Storable(o) {
      DecodeEncode(origins);
      DecodeAllStorable(origins);
    } else if Decode(Encode(origins)) == origins {
      DecodedIsStorable(Encode(origins));
    }
  }

  /** Whatever text is in the column, writing back what was read changes nothing that is read. */
  lemma DecodeEncodeDecode(s: string)
    ensures Decode(Encode(Decode(s))) == Decode(s)
  {
    DecodedIsStorable(s);
    RoundTripIff(Decode(s));
  }
}
