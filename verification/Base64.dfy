/** Standard base64 without padding, encoded and strictly decoded as Go's RawStdEncoding does. */
module Base64 {
  import opened Wrappers

  type Byte = b: nat | b < 256
  type Sextet = x: nat | x < 64

  function SextetChar(x: Sextet): char {
    if x < 26 then (x + 'A' as int) as char
    else if x < 52 then (x - 26 + 'a' as int) as char
    else if x < 62 then (x - 52 + '0' as int) as char
    else if x == 62 then '+' else '/'
  }

  function CharSextet(c: char): Option<Sextet> {
    if 'A' <= c <= 'Z' then Some(c as int - 'A' as int)
    else if 'a' <= c <= 'z' then Some(c as int - 'a' as int + 26)
    else if '0' <= c <= '9' then Some(c as int - '0' as int + 52)
    else if c == '+' then Some(62)
    else if c == '/' then Some(63)
    else None
  }

  lemma CharRoundTrip(x: Sextet, c: char)
    ensures CharSextet(SextetChar(x)) == Some(x)
    ensures CharSextet(c).Some? ==> SextetChar(CharSextet(c).value) == c
  {
  }

  function SextetsText(xs: seq<Sextet>): (s: string)
    ensures |s| == |xs|
  {
    seq(|xs|, i requires 0 <= i < |xs| => SextetChar(xs[i]))
  }

  function TextSextets(s: string): Option<seq<Sextet>>
    decreases |s|
  {
    if s == "" then Some([])
    else
      match (CharSextet(s[0]), TextSextets(s[1..]))
      case (Some(x), Some(xs)) => Some([x] + xs)
      case _ => None
  }

  lemma {:induction false} TextRoundTrip(xs: seq<Sextet>)
    ensures TextSextets(SextetsText(xs)) == Some(xs)
    decreases |xs|
  {
    if xs != [] {
      TextRoundTrip(xs[1..]);
      assert SextetsText(xs)[1..] == SextetsText(xs[1..]);
      CharRoundTrip(xs[0], 'A');
      assert SextetsText(xs)[0] == SextetChar(xs[0]);
      assert [xs[0]] + xs[1..] == xs;
    }
  }

  lemma {:induction false} SextetsAreText(s: string)
    requires TextSextets(s).Some?
    ensures SextetsText(TextSextets(s).value) == s
    decreases |s|
  {
    if s != "" {
      SextetsAreText(s[1..]);
      CharRoundTrip(0, s[0]);
      assert SextetsText(TextSextets(s).value) == [SextetChar(CharSextet(s[0]).value)] + SextetsText(TextSextets(s[1..]).value);
    }
  }

  /** The sextets that two neighbouring bytes share, and the bytes that two neighbouring sextets make up. */
  function High6(a: Byte): Sextet { a / 4 }
  function Mid6(a: Byte, b: Byte): Sextet { a % 4 * 16 + b / 16 }
  function Low6(b: Byte, c: Byte): Sextet { b % 16 * 4 + c / 64 }
  function Last6(c: Byte): Sextet { c % 64 }
  function First8(x: Sextet, y: Sextet): Byte { var v: nat := x; v * 4 + y / 16 }
  function Second8(y: Sextet, z: Sextet): Byte { var v: nat := y % 16; v * 16 + z / 4 }
  function Third8(z: Sextet, w: Sextet): Byte { var v: nat := z % 4; v * 64 + w }

  lemma BitsFit(a: Byte, b: Byte, c: Byte)
    ensures First8(High6(a), Mid6(a, b)) == a
    ensures Second8(Mid6(a, b), Low6(b, c)) == b
    ensures Third8(Low6(b, c), Last6(c)) == c
    ensures Mid6(a, 0) % 16 == 0 && Low6(b, 0) % 4 == 0
  {
    assert a % 4 * 16 + b / 16 == Mid6(a, b) && b / 16 < 16;
    assert Mid6(a, b) / 16 == a % 4 && Mid6(a, b) % 16 == b / 16;
    assert Low6(b, c) / 4 == b % 16 && Low6(b, c) % 4 == c / 64;
  }

  lemma BitsFitBack(x: Sextet, y: Sextet, z: Sextet, w: Sextet)
    ensures High6(First8(x, y)) == x
    ensures Mid6(First8(x, y), Second8(y, z)) == y
    ensures Low6(Second8(y, z), Third8(z, w)) == z
    ensures Last6(Third8(z, w)) == w
    ensures y % 16 == 0 ==> Mid6(First8(x, y), 0) == y
    ensures z % 4 == 0 ==> Low6(Second8(y, z), 0) == z
  {
  }

  /** Three bytes become four sextets; a tail of one or two becomes two or three, its spare bits zero. */
  function Pack(bytes: seq<Byte>): seq<Sextet>
    decreases |bytes|
  {
    if |bytes| == 0 then []
    else if |bytes| == 1 then [High6(bytes[0]), Mid6(bytes[0], 0)]
    else if |bytes| == 2 then [High6(bytes[0]), Mid6(bytes[0], bytes[1]), Low6(bytes[1], 0)]
    else [High6(bytes[0]), Mid6(bytes[0], bytes[1]), Low6(bytes[1], bytes[2]), Last6(bytes[2])] + Pack(bytes[3..])
  }

  /** The bytes of a run of sextets; spare bits must be zero, and a lone sextet denotes nothing. */
  function Unpack(xs: seq<Sextet>): Option<seq<Byte>>
    decreases |xs|
  {
    if |xs| == 0 then Some([])
    else if |xs| == 1 then None
    else if |xs| == 2 then if xs[1] % 16 == 0 then Some([First8(xs[0], xs[1])]) else None
    else if |xs| == 3 then if xs[2] % 4 == 0 then Some([First8(xs[0], xs[1]), Second8(xs[1], xs[2])]) else None
    else
      match Unpack(xs[4..])
      case None => None
      case Some(rest) => Some([First8(xs[0], xs[1]), Second8(xs[1], xs[2]), Third8(xs[2], xs[3])] + rest)
  }

  lemma {:induction false} UnpackPack(bytes: seq<Byte>)
    ensures Unpack(Pack(bytes)) == Some(bytes)
    decreases |bytes|
  {
    if |bytes| >= 3 {
      var x, y, z, w := High6(bytes[0]), Mid6(bytes[0], bytes[1]), Low6(bytes[1], bytes[2]), Last6(bytes[2]);
      UnpackPack(bytes[3..]);
      BitsFit(bytes[0], bytes[1], bytes[2]);
      UnpackFour(x, y, z, w, Pack(bytes[3..]));
      assert bytes == [bytes[0], bytes[1], bytes[2]] + bytes[3..];
    } else if |bytes| == 2 {
      UnpackTwo(bytes[0], bytes[1]);
      assert bytes == [bytes[0], bytes[1]];
    } else if |bytes| == 1 {
      UnpackOne(bytes[0]);
      assert bytes == [bytes[0]];
    }
  }

  lemma UnpackOne(a: Byte)
    ensures Unpack([High6(a), Mid6(a, 0)]) == Some([a])
  {
    BitsFit(a, 0, 0);
    UnpackPair(High6(a), Mid6(a, 0));
  }

  lemma UnpackPair(x: Sextet, y: Sextet)
    requires y % 16 == 0
    ensures Unpack([x, y]) == Some([First8(x, y)])
  {
  }

  lemma UnpackTwo(a: Byte, b: Byte)
    ensures Unpack([High6(a), Mid6(a, b), Low6(b, 0)]) == Some([a, b])
  {
    var x, y, z := High6(a), Mid6(a, b), Low6(b, 0);
    BitsFit(a, b, 0);
    assert First8(x, y) == a && Second8(y, z) == b;
  }

  lemma {:induction false} UnpackFour(x: Sextet, y: Sextet, z: Sextet, w: Sextet, rest: seq<Sextet>)
    requires Unpack(rest).Some?
    ensures Unpack([x, y, z, w] + rest) == Some([First8(x, y), Second8(y, z), Third8(z, w)] + Unpack(rest).value)
  {
    assert ([x, y, z, w] + rest)[4..] == rest;
  }

  lemma {:induction false} PackUnpack(xs: seq<Sextet>)
    requires Unpack(xs).Some?
    ensures Pack(Unpack(xs).value) == xs
    decreases |xs|
  {
    if |xs| >= 4 {
      PackUnpack(xs[4..]);
      BitsFitBack(xs[0], xs[1], xs[2], xs[3]);
      assert Unpack(xs).value[3..] == Unpack(xs[4..]).value;
      assert xs == [xs[0], xs[1], xs[2], xs[3]] + xs[4..];
    } else if |xs| > 1 {
      BitsFitBack(xs[0], xs[1], xs[|xs| - 1], 0);
    }
  }

  function Encode(bytes: seq<Byte>): string {
    SextetsText(Pack(bytes))
  }

  predicate IsNewline(c: char) {
    c == '\n' || c == '\r'
  }

  function StripNewlines(s: string): string {
    if s == "" then "" else (if IsNewline(s[0]) then "" else [s[0]]) + StripNewlines(s[1..])
  }

  predicate NewlineFree(s: string) {
    forall i :: 0 <= i < |s| ==> !IsNewline(s[i])
  }

  /** Go's strict decoder: it skips newlines wherever they stand. */
  function Decode(s: string): Option<seq<Byte>> {
    match TextSextets(StripNewlines(s))
    case None => None
    case Some(xs) => Unpack(xs)
  }

  lemma {:induction false} StripNothing(s: string)
    requires NewlineFree(s)
    ensures StripNewlines(s) == s
    decreases |s|
  {
    if s != "" {
      forall i | 0 <= i < |s| - 1
        ensures !IsNewline(s[1..][i])
      {
        assert s[1..][i] == s[i + 1];
      }
      StripNothing(s[1..]);
    }
  }

  predicate InAlphabet(c: char) {
    CharSextet(c).Some?
  }

  /** Encoding writes alphabet characters only, and decodes back to the bytes. */
  lemma EncodeDecodes(bytes: seq<Byte>)
    ensures Decode(Encode(bytes)) == Some(bytes)
    ensures forall i :: 0 <= i < |Encode(bytes)| ==> InAlphabet(Encode(bytes)[i])
  {
    var s := Encode(bytes);
    forall i | 0 <= i < |s|
      ensures InAlphabet(s[i]) && !IsNewline(s[i])
    {
      CharRoundTrip(Pack(bytes)[i], 'A');
    }
    StripNothing(s);
    TextRoundTrip(Pack(bytes));
    UnpackPack(bytes);
  }

  /** A newline-free text that decodes is the encoding of what it decodes to, so no two decode alike. */
  lemma DecodesOnlyItsEncoding(s: string)
    requires NewlineFree(s) && Decode(s).Some?
    ensures Encode(Decode(s).value) == s
  {
    StripNothing(s);
    SextetsAreText(s);
    PackUnpack(TextSextets(s).value);
  }

  lemma DecodeIsInjective(a: string, b: string)
    requires NewlineFree(a) && NewlineFree(b)
    requires Decode(a).Some? && Decode(a) == Decode(b)
    ensures a == b
  {
    DecodesOnlyItsEncoding(a);
    DecodesOnlyItsEncoding(b);
  }

  lemma {:induction false} StrippedIsNewlineFree(s: string)
    ensures NewlineFree(StripNewlines(s))
    decreases |s|
  {
    if s != "" {
      StrippedIsNewlineFree(s[1..]);
    }
  }

  /** With newlines allowed it would not be: two texts decode alike exactly when they differ in newlines only. */
  lemma {:induction false} NewlinesAreAllThatIsLost(a: string, b: string)
    requires Decode(a).Some?
    ensures Decode(a) == Decode(b) <==> StripNewlines(a) == StripNewlines(b)
  {
    StrippedIsNewlineFree(a);
    StrippedIsNewlineFree(b);
    StripNothing(StripNewlines(a));
    StripNothing(StripNewlines(b));
    if Decode(a) == Decode(b) {
      DecodeIsInjective(StripNewlines(a), StripNewlines(b));
    }
  }

  /** So every accepted text has others that decode alike: a newline fits anywhere. */
  lemma NewlinesBreakInjectivity(s: string, i: nat, c: char)
    requires i <= |s| && IsNewline(c)
    ensures Decode(s[..i] + [c] + s[i..]) == Decode(s)
  {
    StripConcat(s[..i], [c] + s[i..]);
    StripConcat(s[..i], s[i..]);
    assert s[..i] + [c] + s[i..] == s[..i] + ([c] + s[i..]) && s[..i] + s[i..] == s;
    assert ([c] + s[i..])[1..] == s[i..] && "" + StripNewlines(s[i..]) == StripNewlines(s[i..]);
  }

  lemma {:induction false} StripConcat(a: string, b: string)
    ensures StripNewlines(a + b) == StripNewlines(a) + StripNewlines(b)
    decreases |a|
  {
    if a == "" {
      assert a + b == b;
    } else {
      assert (a + b)[1..] == a[1..] + b;
      StripConcat(a[1..], b);
    }
  }
}
