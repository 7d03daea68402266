/** When two stored PHC strings denote the same hash: the numbers may carry leading zeros and the text before
    the first separator is never read; everything else is spelled in one way only. */
module PhcCanonical {
  import opened Wrappers
  import opened Decimal
  import opened Base64
  import opened Phc

  // ---------------------------------------------------------------- numerals

  function StripZeros(t: string): string {
    if |t| > 1 && t[0] == '0' then StripZeros(t[1..]) else t
  }

  /** Spelled without a needless zero in front. */
  predicate Minimal(t: string) {
    t != "" && (|t| == 1 || t[0] != '0')
  }

  lemma {:induction false} StrippedUnlessMinimal(t: string)
    requires t != ""
    ensures |StripZeros(t)| <= |t| && (StripZeros(t) == t <==> Minimal(t))
    ensures forall i :: 0 <= i < |StripZeros(t)| ==> StripZeros(t)[i] in t
    decreases |t|
  {
    if |t| > 1 && t[0] == '0' {
      StrippedUnlessMinimal(t[1..]);
      assert forall c :: c in t[1..] ==> c in t;
    }
  }

  lemma {:induction false} LeadingDigitCounts(t: string)
    requires ParseNat(t).Some? && t[0] != '0'
    ensures ParseNat(t).value > 0
    decreases |t|
  {
    if |t| > 1 {
      assert t[..|t| - 1][0] == t[0];
      LeadingDigitCounts(t[..|t| - 1]);
    }
  }

  lemma OneDigit(c: char)
    requires DigitValue(c).Some?
    ensures NatText(DigitValue(c).value) == [c]
  {
    assert Digit(DigitValue(c).value) == c;
  }

  lemma AppendDigit(n: nat, c: char)
    requires n > 0 && DigitValue(c).Some?
    ensures NatText(10 * n + DigitValue(c).value) == NatText(n) + [c]
  {
    var d := DigitValue(c).value;
    assert Digit(d) == c;
    assert (10 * n + d) / 10 == n && (10 * n + d) % 10 == d;
  }

  lemma {:induction false} MinimalIsPrinted(t: string)
    requires ParseNat(t).Some? && Minimal(t)
    ensures NatText(ParseNat(t).value) == t
    decreases |t|
  {
    var c, init := t[|t| - 1], t[..|t| - 1];
    assert t == init + [c];
    if |t| == 1 {
      OneDigit(c);
    } else {
      assert init[0] == t[0];
      LeadingDigitCounts(init);
      MinimalIsPrinted(init);
      AppendDigit(ParseNat(init).value, c);
    }
  }

  /** Printing what a text parses to gives the text without its leading zeros. */
  lemma {:induction false} PrintedNumeral(t: string)
    requires ParseNat(t).Some?
    ensures NatText(ParseNat(t).value) == StripZeros(t)
    decreases |t|
  {
    if |t| > 1 && t[0] == '0' {
      assert t == "0" + t[1..];
      LeadingZero(t[1..]);
      PrintedNumeral(t[1..]);
    } else {
      MinimalIsPrinted(t);
    }
  }

  // ---------------------------------------------------------------- joining what was split

  function Join(parts: seq<string>, sep: char): string {
    if parts == [] then ""
    else if |parts| == 1 then parts[0]
    else parts[0] + [sep] + Join(parts[1..], sep)
  }

  /** Splitting loses nothing, and a part that is not the last of a full split holds no separator. */
  lemma {:induction false} JoinSplit(s: string, sep: char, n: nat)
    requires n > 0
    ensures Join(SplitN(s, sep, n), sep) == s
    ensures |SplitN(s, sep, n)| <= n
    ensures |SplitN(s, sep, n)| < n ==> forall i :: 0 <= i < |SplitN(s, sep, n)| ==> Free(SplitN(s, sep, n)[i], sep)
    decreases |s|
  {
    if s != "" && n > 1 {
      var parts := SplitN(s, sep, n);
      assert s == [s[0]] + s[1..];
      if s[0] == sep {
        JoinSplit(s[1..], sep, n - 1);
        assert parts[1..] == SplitN(s[1..], sep, n - 1);
        assert Join(parts, sep) == "" + [sep] + s[1..];
      } else {
        JoinSplit(s[1..], sep, n);
        var rest := SplitN(s[1..], sep, n);
        assert parts == [[s[0]] + rest[0]] + rest[1..] && parts[1..] == rest[1..];
        if |rest| > 1 {
          assert [s[0]] + rest[0] + [sep] + Join(rest[1..], sep) == [s[0]] + (rest[0] + [sep] + Join(rest[1..], sep));
        }
      }
    }
  }

  // ---------------------------------------------------------------- the canonical spelling

  function Parts(hash: string): seq<string> {
    SplitN(hash, SEPARATOR, SEGMENTS + 1)
  }

  function Costs(hash: string): seq<string>
    requires |Parts(hash)| == SEGMENTS
  {
    SplitN(Parts(hash)[3], ',', 4)
  }

  /** A segment made of a two-letter prefix and a number. */
  predicate Numbered(segment: string) {
    |segment| > 2 && ParseNat(segment[2..]).Some?
  }

  predicate NumberedCosts(c: seq<string>) {
    |c| == 3 && Numbered(c[0]) && Numbered(c[1]) && Numbered(c[2])
  }

  function Trimmed(segment: string): string
    requires Numbered(segment)
  {
    segment[..2] + StripZeros(segment[2..])
  }

  /** What acceptance says about the four numbers. */
  lemma AcceptedNumbers(hash: string)
    requires Unmarshal(hash).Some?
    ensures |Parts(hash)| == SEGMENTS && Numbered(Parts(hash)[2]) && NumberedCosts(Costs(hash))
    ensures var p, c, d := Parts(hash), Costs(hash), Unmarshal(hash).value;
            && Trimmed(p[2]) == "v=" + NatText(d.params.version)
            && Trimmed(c[0]) == "m=" + NatText(d.params.memory)
            && Trimmed(c[1]) == "t=" + NatText(d.params.time)
            && Trimmed(c[2]) == "p=" + NatText(d.params.threads)
  {
    var p, c := Parts(hash), Costs(hash);
    NumberedPiece(p[2], "v=", MAX_UINT8);
    NumberedPiece(c[0], "m=", MAX_UINT32);
    NumberedPiece(c[1], "t=", MAX_UINT32);
    NumberedPiece(c[2], "p=", MAX_UINT8);
  }

  /** What acceptance says about the pieces. */
  lemma AcceptedPieces(hash: string)
    requires Unmarshal(hash).Some?
    ensures |Parts(hash)| == SEGMENTS && Numbered(Parts(hash)[2]) && NumberedCosts(Costs(hash))
    ensures var p, c, d := Parts(hash), Costs(hash), Unmarshal(hash).value;
            && d.params.algo == p[1] && Encode(d.salt) == p[4] && Encode(d.key) == p[5]
            && ReadableAlgo(d.params.algo)
            && d.params.saltLen == Length32(d.salt) && d.params.keyLen == Length32(d.key)
  {
    var p := Parts(hash);
    AcceptedNumbers(hash);
    SplitNewlineFree(hash, SEPARATOR, SEGMENTS + 1);
    JoinSplit(hash, SEPARATOR, SEGMENTS + 1);
    DecodesOnlyItsEncoding(p[4]);
    DecodesOnlyItsEncoding(p[5]);
  }

  lemma NumberedPiece(segment: string, prefix: string, max: nat)
    requires |prefix| == 2 && ParseUint(segment, prefix, max).Some?
    ensures Numbered(segment) && segment[..2] == prefix
    ensures Trimmed(segment) == prefix + NatText(ParseUint(segment, prefix, max).value)
  {
    PrintedNumeral(segment[2..]);
  }

  /** The canonical spelling of an accepted string, read off its text. */
  function Canonical(hash: string): string
    requires Unmarshal(hash).Some?
  {
    AcceptedPieces(hash);
    var p, c := Parts(hash), Costs(hash);
    "$" + (p[1] + "$" + Tail(Trimmed(p[2]), Trimmed(c[0]) + "," + (Trimmed(c[1]) + "," + Trimmed(c[2])), p[4], p[5]))
  }

  lemma MarshalIsCanonical(hash: string)
    requires Unmarshal(hash).Some?
    ensures Marshal(Unmarshal(hash).value) == Canonical(hash)
  {
    AcceptedPieces(hash);
    AcceptedNumbers(hash);
  }

  /** Parsing and printing back keeps the salt, key and algorithm as they stand, drops the leading zeros of the
      four numbers and whatever stood before the first separator, and changes nothing else. */
  lemma PrintedCanonically(hash: string)
    requires Unmarshal(hash).Some?
    ensures Marshal(Unmarshal(hash).value) == Canonical(hash)
    ensures Unmarshal(Canonical(hash)) == Unmarshal(hash)
  {
    MarshalIsCanonical(hash);
    AcceptedPieces(hash);
    RoundTrip(Unmarshal(hash).value);
  }

  /** Two stored strings denote the same hash exactly when their canonical spellings agree. */
  lemma SameHashIffSameCanonical(a: string, b: string)
    requires Unmarshal(a).Some? && Unmarshal(b).Some?
    ensures Unmarshal(a) == Unmarshal(b) <==> Canonical(a) == Canonical(b)
  {
    PrintedCanonically(a);
    PrintedCanonically(b);
  }

  /** A two-letter prefix and a number with no needless zero. */
  predicate MinimalPiece(segment: string) {
    |segment| > 2 && Minimal(segment[2..])
  }

  predicate MinimalNumbers(hash: string)
    requires |Parts(hash)| == SEGMENTS && |Costs(hash)| == 3
  {
    MinimalPiece(Parts(hash)[2])
    && MinimalPiece(Costs(hash)[0]) && MinimalPiece(Costs(hash)[1]) && MinimalPiece(Costs(hash)[2])
  }

  /** What a canonical string looks like: nothing before the first separator, no number with a needless zero. */
  predicate IsCanonical(hash: string)
    requires |Parts(hash)| == SEGMENTS && |Costs(hash)| == 3
  {
    Parts(hash)[0] == ""
    && MinimalNumbers(hash)
  }

  lemma TrimmedUnlessMinimal(segment: string)
    requires Numbered(segment)
    ensures Trimmed(segment) == segment <==> MinimalPiece(segment)
  {
    StrippedUnlessMinimal(segment[2..]);
    assert segment == segment[..2] + segment[2..];
    assert Trimmed(segment)[2..] == StripZeros(segment[2..]);
  }

  /** The pieces of a canonical spelling. */
  lemma CanonicalSplits(hash: string)
    requires Unmarshal(hash).Some?
    requires |Parts(hash)| == SEGMENTS && |Costs(hash)| == 3
    requires Numbered(Parts(hash)[2]) && NumberedCosts(Costs(hash))
    ensures var p, c := Parts(hash), Costs(hash);
            var cost := Trimmed(c[0]) + "," + (Trimmed(c[1]) + "," + Trimmed(c[2]));
            && Parts(Canonical(hash)) == ["", p[1], Trimmed(p[2]), cost, p[4], p[5]]
            && SplitN(cost, ',', 4) == [Trimmed(c[0]), Trimmed(c[1]), Trimmed(c[2])]
  {
    AcceptedPieces(hash);
    AcceptedNumbers(hash);
    var d := Unmarshal(hash).value;
    SegmentsArePlain(d);
    CostParses(d.params);
    HashSplits(d.params.algo, "v=" + NatText(d.params.version), CostText(d.params), Encode(d.salt), Encode(d.key));
  }

  lemma TrimmedPieces(p: string, c: seq<string>)
    requires Numbered(p) && NumberedCosts(c)
    ensures MinimalPiece(p) && MinimalPiece(c[0]) && MinimalPiece(c[1]) && MinimalPiece(c[2])
            <==> Trimmed(p) == p && Trimmed(c[0]) == c[0] && Trimmed(c[1]) == c[1] && Trimmed(c[2]) == c[2]
  {
    TrimmedUnlessMinimal(p);
    TrimmedUnlessMinimal(c[0]);
    TrimmedUnlessMinimal(c[1]);
    TrimmedUnlessMinimal(c[2]);
  }

  /** An accepted string is its own canonical spelling exactly when it looks canonical. */
  lemma CanonicalIffSpelledSo(hash: string)
    requires Unmarshal(hash).Some?
    ensures |Parts(hash)| == SEGMENTS && |Costs(hash)| == 3
    ensures Canonical(hash) == hash <==> IsCanonical(hash)
  {
    AcceptedPieces(hash);
    TrimmedPieces(Parts(hash)[2], Costs(hash));
    CanonicalSplits(hash);
    if IsCanonical(hash) {
      CostsRejoin(Parts(hash)[3]);
      assert Parts(Canonical(hash)) == Parts(hash);
      JoinSplit(hash, SEPARATOR, SEGMENTS + 1);
      JoinSplit(Canonical(hash), SEPARATOR, SEGMENTS + 1);
    }
  }

  /** An accepted string is printed back as it was stored exactly when it is canonical. */
  lemma StoredAsPrintedIffCanonical(hash: string)
    requires Unmarshal(hash).Some?
    ensures |Parts(hash)| == SEGMENTS && |Costs(hash)| == 3
    ensures Marshal(Unmarshal(hash).value) == hash <==> IsCanonical(hash)
  {
    CanonicalIffSpelledSo(hash);
    PrintedCanonically(hash);
  }

  lemma {:induction false} CostsRejoin(segment: string)
    requires |SplitN(segment, ',', 4)| == 3
    ensures var c := SplitN(segment, ',', 4); segment == c[0] + "," + (c[1] + "," + c[2])
  {
    var c := SplitN(segment, ',', 4);
    JoinSplit(segment, ',', 4);
    JoinThree(c[0], c[1], c[2]);
    assert c == [c[0], c[1], c[2]];
  }

  lemma JoinThree(a: string, b: string, c: string)
    ensures Join([a, b, c], ',') == a + "," + (b + "," + c)
  {
    assert [a, b, c][1..] == [b, c] && [b, c][1..] == [c];
    assert Join([b, c], ',') == b + [','] + Join([c], ',') == b + "," + c;
    assert Join([a, b, c], ',') == a + [','] + Join([b, c], ',');
    assert b + "," + c == b + ("," + c);
  }

  /** Canonical strings are unique: two of them that denote the same hash are the same string. */
  lemma CanonicalStringsAreUnique(a: string, b: string)
    requires Unmarshal(a).Some? && Unmarshal(a) == Unmarshal(b)
    requires |Parts(a)| == SEGMENTS && |Costs(a)| == 3 && IsCanonical(a)
    requires |Parts(b)| == SEGMENTS && |Costs(b)| == 3 && IsCanonical(b)
    ensures a == b
  {
    StoredAsPrintedIffCanonical(a);
    StoredAsPrintedIffCanonical(b);
  }

  /** Only strings that start with a separator are routed to this parser. Of those accepted, the ones printed back
      as they were stored are exactly those whose four numbers are minimal. */
  lemma RoutedAsPrintedIffMinimal(hash: string)
    requires hash != "" && hash[0] == SEPARATOR && Unmarshal(hash).Some?
    ensures |Parts(hash)| == SEGMENTS && |Costs(hash)| == 3
    ensures Marshal(Unmarshal(hash).value) == hash <==> MinimalNumbers(hash)
  {
    assert Parts(hash)[0] == "";
    StoredAsPrintedIffCanonical(hash);
  }

  lemma {:induction false} SplitAfter(x: string, s: string, sep: char, n: nat)
    requires n > 1 && Free(x, sep)
    ensures SplitN(x + s, sep, n) == [x + SplitN(s, sep, n)[0]] + SplitN(s, sep, n)[1..]
    decreases |x|
  {
    if x == "" {
      assert x + s == s && x + SplitN(s, sep, n)[0] == SplitN(s, sep, n)[0];
    } else {
      assert (x + s)[1..] == x[1..] + s && x[0] in x && forall c :: c in x[1..] ==> c in x;
      SplitAfter(x[1..], s, sep, n);
      assert [x[0]] + (x[1..] + SplitN(s, sep, n)[0]) == x + SplitN(s, sep, n)[0];
    }
  }

  /** The parser itself never reads what stands before the first separator. */
  lemma FirstPieceIsNotRead(x: string, hash: string)
    requires Free(x, SEPARATOR) && NewlineFree(x)
    ensures Unmarshal(x + hash) == Unmarshal(hash)
  {
    SplitAfter(x, hash, SEPARATOR, SEGMENTS + 1);
    NewlineFreeConcat(x, hash);
  }
}
