/** Password hashes as PHC strings: printing, splitting and strict parsing. */
module Phc {
  import opened Wrappers
  import opened Decimal
  import opened Base64

  const MAX_UINT8 := 255
  const MAX_UINT32 := 0xFFFF_FFFF
  type U8 = n: nat | n <= MAX_UINT8
  type U32 = n: nat | n <= MAX_UINT32

  datatype Params = Params(algo: string, version: U8, keyLen: U32, saltLen: U32, time: U32, memory: U32, threads: U8)
  datatype Hashed = Hashed(params: Params, salt: seq<Byte>, key: seq<Byte>)

  const SEPARATOR := '$'
  const SEGMENTS := 6

  // ---------------------------------------------------------------- splitting

  function Count(s: string, c: char): nat {
    if s == "" then 0 else (if s[0] == c then 1 else 0) + Count(s[1..], c)
  }

  /** Go's strings.SplitN: at most n parts, the last holding whatever is left. */
  function SplitN(s: string, sep: char, n: nat): (parts: seq<string>)
    requires n > 0
    ensures |parts| > 0
    decreases |s|
  {
    if s == "" || n == 1 then [s]
    else if s[0] == sep then [""] + SplitN(s[1..], sep, n - 1)
    else
      var rest := SplitN(s[1..], sep, n);
      [[s[0]] + rest[0]] + rest[1..]
  }

  lemma {:induction false} SplitCount(s: string, sep: char, n: nat)
    requires n > 0
    ensures |SplitN(s, sep, n)| == if Count(s, sep) + 1 < n then Count(s, sep) + 1 else n
    decreases |s|
  {
    if s != "" && n > 1 {
      SplitCount(s[1..], sep, if s[0] == sep then n - 1 else n);
    }
  }

  lemma {:induction false} CountConcat(a: string, b: string, c: char)
    ensures Count(a + b, c) == Count(a, c) + Count(b, c)
    decreases |a|
  {
    if a == "" {
      assert a + b == b;
    } else {
      assert (a + b)[1..] == a[1..] + b;
      CountConcat(a[1..], b, c);
    }
  }

  predicate Free(s: string, c: char) {
    c !in s
  }

  lemma {:induction false} FreeCountsZero(s: string, c: char)
    ensures Free(s, c) <==> Count(s, c) == 0
    decreases |s|
  {
    if s != "" {
      FreeCountsZero(s[1..], c);
      assert s == [s[0]] + s[1..];
    }
  }

  /** A separator-free segment followed by a separator splits off whole. */
  lemma {:induction false} SplitFirst(segment: string, sep: char, rest: string, n: nat)
    requires n > 1 && Free(segment, sep)
    ensures SplitN(segment + [sep] + rest, sep, n) == [segment] + SplitN(rest, sep, n - 1)
    decreases |segment|
  {
    var s := segment + [sep] + rest;
    if segment == "" {
      assert s[1..] == rest;
    } else {
      assert s[0] == segment[0] && s[1..] == segment[1..] + [sep] + rest;
      SplitFirst(segment[1..], sep, rest, n);
      assert [segment[0]] + segment[1..] == segment;
    }
  }

  lemma {:induction false} SplitLast(segment: string, sep: char, n: nat)
    requires n > 0 && Free(segment, sep)
    ensures SplitN(segment, sep, n) == [segment]
    decreases |segment|
  {
    if segment != "" && n > 1 {
      assert segment[0] in segment && forall c :: c in segment[1..] ==> c in segment;
      SplitLast(segment[1..], sep, n);
      assert [segment[0]] + segment[1..] == segment;
    }
  }

  // ---------------------------------------------------------------- printing and parsing

  function CostText(p: Params): string {
    "m=" + NatText(p.memory) + "," + ("t=" + NatText(p.time) + "," + ("p=" + NatText(p.threads)))
  }

  function Marshal(d: Hashed): string {
    "" + "$" + (d.params.algo + "$" + ("v=" + NatText(d.params.version) + "$"
      + (CostText(d.params) + "$" + (Encode(d.salt) + "$" + Encode(d.key)))))
  }

  function CutPrefix(s: string, prefix: string): Option<string> {
    if prefix <= s then Some(s[|prefix|..]) else None
  }

  function ParseUint(segment: string, prefix: string, max: nat): (r: Option<nat>)
    ensures r.Some? ==> r.value <= max
  {
    match CutPrefix(segment, prefix)
    case None => None
    case Some(rest) =>
      match ParseNat(rest)
      case None => None
      case Some(n) => if n <= max then Some(n) else None
  }

  /** The lengths are left zero; the caller fills them in. */
  function ParseParams(algo: string, versionSegment: string, costSegment: string): Option<Params> {
    var cost := SplitN(costSegment, ',', 4);
    match ParseUint(versionSegment, "v=", MAX_UINT8)
    case None => None
    case Some(version) =>
      if |cost| != 3 then None
      else
        match (ParseUint(cost[0], "m=", MAX_UINT32), ParseUint(cost[1], "t=", MAX_UINT32), ParseUint(cost[2], "p=", MAX_UINT8))
        case (Some(memory), Some(time), Some(threads)) => Some(Params(algo, version, 0, 0, time, memory, threads))
        case _ => None
  }

  /** The length as the 32-bit field stores it. */
  function Length32(bytes: seq<Byte>): U32 {
    |bytes| % (MAX_UINT32 + 1)
  }

  function Unmarshal(hash: string): Option<Hashed> {
    var parts := SplitN(hash, SEPARATOR, SEGMENTS + 1);
    if !NewlineFree(hash) || |parts| != SEGMENTS then None
    else
      match (ParseParams(parts[1], parts[2], parts[3]), Decode(parts[4]), Decode(parts[5]))
      case (Some(p), Some(salt), Some(key)) =>
        Some(Hashed(p.(saltLen := Length32(salt), keyLen := Length32(key)), salt, key))
      case _ => None
  }

  // ---------------------------------------------------------------- round trip

  lemma {:induction false} NumeralParses(n: nat, prefix: string, max: nat)
    requires n <= max
    ensures ParseUint(prefix + NatText(n), prefix, max) == Some(n)
  {
    ParseNatText(n);
    TextParses(NatText(n), n, prefix, max);
  }

  lemma {:induction false} TextParses(text: string, n: nat, prefix: string, max: nat)
    requires ParseNat(text) == Some(n) && n <= max
    ensures ParseUint(prefix + text, prefix, max) == Some(n)
  {
    assert (prefix + text)[|prefix|..] == text;
  }

  /** A character that can be neither a separator nor a newline. */
  predicate Plain(c: char) {
    c != SEPARATOR && !IsNewline(c)
  }

  predicate AllPlain(s: string) {
    forall i :: 0 <= i < |s| ==> Plain(s[i])
  }

  lemma {:induction false} NumeralPlain(prefix: string, n: nat, c: char)
    requires AllPlain(prefix) && !('0' <= c <= '9') && Free(prefix, c)
    ensures AllPlain(prefix + NatText(n)) && Free(prefix + NatText(n), c)
  {
    assert forall i :: 0 <= i < |NatText(n)| ==> Plain(NatText(n)[i]) && NatText(n)[i] != c;
  }

  lemma EncodingPlain(bytes: seq<Byte>)
    ensures AllPlain(Encode(bytes))
  {
    EncodeDecodes(bytes);
    forall i | 0 <= i < |Encode(bytes)|
      ensures Plain(Encode(bytes)[i])
    {
      assert InAlphabet(Encode(bytes)[i]);
    }
  }

  lemma {:induction false} PlainIsFree(s: string)
    requires AllPlain(s)
    ensures Free(s, SEPARATOR) && NewlineFree(s) && Count(s, SEPARATOR) == 0
  {
    FreeCountsZero(s, SEPARATOR);
  }

  lemma CostParses(p: Params)
    ensures AllPlain(CostText(p))
    ensures SplitN(CostText(p), ',', 4) == ["m=" + NatText(p.memory), "t=" + NatText(p.time), "p=" + NatText(p.threads)]
  {
    var m, t, h := "m=" + NatText(p.memory), "t=" + NatText(p.time), "p=" + NatText(p.threads);
    NumeralPlain("m=", p.memory, ',');
    NumeralPlain("t=", p.time, ',');
    NumeralPlain("p=", p.threads, ',');
    SplitFirst(m, ',', t + "," + h, 4);
    SplitFirst(t, ',', h, 3);
    SplitLast(h, ',', 2);
    assert AllPlain(t + "," + h);
    assert CostText(p) == m + "," + (t + "," + h);
  }

  lemma ParamsParse(p: Params)
    ensures ParseParams(p.algo, "v=" + NatText(p.version), CostText(p)) == Some(p.(saltLen := 0, keyLen := 0))
  {
    CostParses(p);
    NumeralParses(p.version, "v=", MAX_UINT8);
    NumeralParses(p.memory, "m=", MAX_UINT32);
    NumeralParses(p.time, "t=", MAX_UINT32);
    NumeralParses(p.threads, "p=", MAX_UINT8);
  }

  /** The segments after the algorithm name, joined. */
  function Tail(v: string, c: string, s: string, k: string): string {
    v + "$" + (c + "$" + (s + "$" + k))
  }

  lemma TailSplits(v: string, c: string, s: string, k: string)
    requires AllPlain(v) && AllPlain(c) && AllPlain(s) && AllPlain(k)
    ensures SplitN(Tail(v, c, s, k), SEPARATOR, 5) == [v, c, s, k]
  {
    PlainIsFree(v);
    PlainIsFree(c);
    PlainIsFree(s);
    PlainIsFree(k);
    SplitFirst(v, SEPARATOR, c + "$" + (s + "$" + k), 5);
    SplitFirst(c, SEPARATOR, s + "$" + k, 4);
    SplitFirst(s, SEPARATOR, k, 3);
    SplitLast(k, SEPARATOR, 2);
  }

  lemma TailIsClean(v: string, c: string, s: string, k: string)
    requires AllPlain(v) && AllPlain(c) && AllPlain(s) && AllPlain(k)
    ensures NewlineFree(Tail(v, c, s, k)) && Count(Tail(v, c, s, k), SEPARATOR) == 3
  {
    PlainIsFree(v);
    PlainIsFree(c);
    PlainIsFree(s);
    PlainIsFree(k);
    TailSplits(v, c, s, k);
    SplitCount(Tail(v, c, s, k), SEPARATOR, 5);
    NewlineFreeConcat(s + "$", k);
    NewlineFreeConcat(c + "$", s + "$" + k);
    NewlineFreeConcat(v + "$", c + "$" + (s + "$" + k));
  }

  lemma HashSplits(algo: string, v: string, c: string, s: string, k: string)
    requires ReadableAlgo(algo) && AllPlain(v) && AllPlain(c) && AllPlain(s) && AllPlain(k)
    ensures var hash := "$" + (algo + "$" + Tail(v, c, s, k));
            NewlineFree(hash) && SplitN(hash, SEPARATOR, SEGMENTS + 1) == ["", algo, v, c, s, k]
  {
    var tail := Tail(v, c, s, k);
    TailSplits(v, c, s, k);
    TailIsClean(v, c, s, k);
    NewlineFreeConcat(algo + "$", tail);
    NewlineFreeConcat(algo, "$");
    NewlineFreeConcat("$", algo + "$" + tail);
    SplitFirst("", SEPARATOR, algo + "$" + tail, SEGMENTS + 1);
    SplitFirst(algo, SEPARATOR, tail, SEGMENTS);
  }

  /** The printed segments hold no separator and no newline. */
  lemma SegmentsArePlain(d: Hashed)
    ensures AllPlain("v=" + NatText(d.params.version)) && AllPlain(CostText(d.params))
    ensures AllPlain(Encode(d.salt)) && AllPlain(Encode(d.key))
  {
    NumeralPlain("v=", d.params.version, ',');
    CostParses(d.params);
    EncodingPlain(d.salt);
    EncodingPlain(d.key);
  }

  lemma NewlineFreeConcat(a: string, b: string)
    ensures NewlineFree(a + b) <==> NewlineFree(a) && NewlineFree(b)
  {
    if NewlineFree(a + b) {
      assert forall i :: 0 <= i < |a| ==> a[i] == (a + b)[i];
      assert forall i :: 0 <= i < |b| ==> b[i] == (a + b)[|a| + i];
    }
  }

  /** What an algorithm name must look like for its hash to be readable. */
  predicate ReadableAlgo(algo: string) {
    Free(algo, SEPARATOR) && NewlineFree(algo)
  }

  /** Printing and parsing back restores a hash exactly when its algorithm name holds no separator and no
      newline and its stored lengths are those of its salt and key; with any other name it is rejected. */
  lemma RoundTrip(d: Hashed)
    ensures Unmarshal(Marshal(d)) == Some(d) <==>
            ReadableAlgo(d.params.algo) && d.params.saltLen == Length32(d.salt) && d.params.keyLen == Length32(d.key)
    ensures Unmarshal(Marshal(d)).Some? <==> ReadableAlgo(d.params.algo)
  {
    var algo, hash := d.params.algo, Marshal(d);
    var tail := Tail("v=" + NatText(d.params.version), CostText(d.params), Encode(d.salt), Encode(d.key));
    assert hash == "$" + (algo + "$" + tail);
    SegmentsArePlain(d);
    if ReadableAlgo(algo) {
      HashSplits(algo, "v=" + NatText(d.params.version), CostText(d.params), Encode(d.salt), Encode(d.key));
      ParamsParse(d.params);
      EncodeDecodes(d.salt);
      EncodeDecodes(d.key);
    } else if !NewlineFree(algo) {
      NewlineFreeConcat(algo + "$", tail);
      NewlineFreeConcat(algo, "$");
      NewlineFreeConcat("$", algo + "$" + tail);
    } else {
      TailIsClean("v=" + NatText(d.params.version), CostText(d.params), Encode(d.salt), Encode(d.key));
      SplitCount(hash, SEPARATOR, SEGMENTS + 1);
      FreeCountsZero(algo, SEPARATOR);
      CountConcat("$", algo + "$" + tail, SEPARATOR);
      CountConcat(algo + "$", tail, SEPARATOR);
      CountConcat(algo, "$", SEPARATOR);
    }
  }

  lemma {:induction false} SplitNewlineFree(s: string, sep: char, n: nat)
    requires n > 0 && NewlineFree(s)
    ensures forall i :: 0 <= i < |SplitN(s, sep, n)| ==> NewlineFree(SplitN(s, sep, n)[i])
    decreases |s|
  {
    if s != "" && n > 1 {
      assert s == [s[0]] + s[1..];
      NewlineFreeConcat([s[0]], s[1..]);
      var m := if s[0] == sep then n - 1 else n;
      SplitNewlineFree(s[1..], sep, m);
      NewlineFreeConcat([s[0]], SplitN(s[1..], sep, m)[0]);
    }
  }

  /** Two accepted strings have the same salt and key exactly when they spell them identically. */
  lemma {:induction false} SaltAndKeyAreCanonical(a: string, b: string)
    requires Unmarshal(a).Some? && Unmarshal(b).Some?
    ensures Unmarshal(a).value.salt == Unmarshal(b).value.salt && Unmarshal(a).value.key == Unmarshal(b).value.key
            <==> SplitN(a, SEPARATOR, SEGMENTS + 1)[4..] == SplitN(b, SEPARATOR, SEGMENTS + 1)[4..]
  {
    var p, q := SplitN(a, SEPARATOR, SEGMENTS + 1), SplitN(b, SEPARATOR, SEGMENTS + 1);
    SplitNewlineFree(a, SEPARATOR, SEGMENTS + 1);
    SplitNewlineFree(b, SEPARATOR, SEGMENTS + 1);
    if Decode(p[4]) == Decode(q[4]) { DecodeIsInjective(p[4], q[4]); }
    if Decode(p[5]) == Decode(q[5]) { DecodeIsInjective(p[5], q[5]); }
    assert p[4..] == [p[4], p[5]] && q[4..] == [q[4], q[5]];
  }

  /** The numbers are not: a version written with a leading zero is accepted as the same hash, so distinct
      stored strings can denote one hash after all. */
  lemma LeadingZeroIsAccepted(d: Hashed)
    requires ReadableAlgo(d.params.algo)
    ensures var tail := Tail("v=0" + NatText(d.params.version), CostText(d.params), Encode(d.salt), Encode(d.key));
            var padded := "$" + (d.params.algo + "$" + tail);
            padded != Marshal(d) && Unmarshal(padded) == Unmarshal(Marshal(d)) && Unmarshal(padded).Some?
  {
    var v, w := "v=0" + NatText(d.params.version), "v=" + NatText(d.params.version);
    var c, s, k := CostText(d.params), Encode(d.salt), Encode(d.key);
    SegmentsArePlain(d);
    NumeralPlain("v=0", d.params.version, ',');
    HashSplits(d.params.algo, v, c, s, k);
    HashSplits(d.params.algo, w, c, s, k);
    PaddedVersionParses(d.params.version);
    assert ParseParams(d.params.algo, v, c) == ParseParams(d.params.algo, w, c);
    assert |v| != |w|;
    assert Marshal(d) == "$" + (d.params.algo + "$" + Tail(w, c, s, k));
    RoundTrip(d);
  }

  lemma {:induction false} PaddedVersionParses(n: U8)
    ensures ParseUint("v=0" + NatText(n), "v=", MAX_UINT8) == ParseUint("v=" + NatText(n), "v=", MAX_UINT8) == Some(n)
  {
    var text := NatText(n);
    NumeralParses(n, "v=", MAX_UINT8);
    ParseNatText(n);
    LeadingZero(text);
    TextParses("0" + text, n, "v=", MAX_UINT8);
    assert "v=0" + text == "v=" + ("0" + text);
  }
}
