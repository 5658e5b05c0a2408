/** Vertex labels of the undirected graph (docs/mincut.js, lines 267-282, 288-290, 359-365).
    The graph keys its networks by the string 'v' + id; the vertex-split network adds '_in' and
    '_out'. The flow networks of this model use the datatype Edges.Vertex instead of these
    strings; the lemmas below show that nothing is lost: every id is recovered from its label. */
module Labels {

  datatype Option<T> = None | Some(value: T)

  /** A vertex as the graph receives it: a JavaScript number, or a label string already formed. */
  datatype VertexRef = Num(n: int) | Text(s: string)

  /** The two halves of a split vertex, and the suffix each adds to the label. */
  datatype Half = InHalf | OutHalf

  function Suffix(h: Half): string
  {
    match h
    case InHalf => "_in"
    case OutHalf => "_out"
  }

  predicate IsDigit(c: char)
  {
    '0' <= c <= '9'
  }

  predicate AllDigits(s: string)
  {
    forall i :: 0 <= i < |s| ==> IsDigit(s[i])
  }

  function DigitChar(d: nat): (c: char)
    requires d < 10
    ensures IsDigit(c)
  {
    "0123456789"[d]
  }

  function DigitValue(c: char): (d: nat)
    requires IsDigit(c)
    ensures d < 10
  {
    c as int - '0' as int
  }

  /** The decimal rendering of a natural number (JavaScript's String(n) for a safe integer). */
  function NatToDecimal(n: nat): (s: string)
    ensures |s| > 0 && AllDigits(s)
  {
    if n < 10 then [DigitChar(n)] else NatToDecimal(n / 10) + [DigitChar(n % 10)]
  }

  function IntToDecimal(n: int): string
  {
    if n < 0 then ['-'] + NatToDecimal(-n) else NatToDecimal(n)
  }

  /** The longest prefix of s made of decimal digits: where parseInt stops reading. */
  function DigitPrefix(s: string): (d: string)
    ensures d <= s && AllDigits(d)
    ensures |d| < |s| ==> !IsDigit(s[|d|])
  {
    if s == [] || !IsDigit(s[0]) then [] else [s[0]] + DigitPrefix(s[1..])
  }

  /** The value of a string of decimal digits, read left to right. */
  function DigitsValue(d: string): nat
    requires AllDigits(d)
  {
    if d == [] then 0 else DigitsValue(d[..|d| - 1]) * 10 + DigitValue(d[|d| - 1])
  }

  /** s starts like a number: a digit, or a sign followed by a digit. */
  predicate StartsNumber(s: string)
  {
    (|s| > 0 && IsDigit(s[0])) || (|s| > 1 && (s[0] == '-' || s[0] == '+') && IsDigit(s[1]))
  }

  /** parseInt(s) with radix 10 on input made of an optional sign, digits and then anything
      else (the shape vertex labels have): the digits up to the first non-digit, None where
      parseInt yields NaN. parseInt's skipping of leading whitespace and its reading of a '0x'
      prefix as hexadecimal are not modelled; the labels 'v' + decimal never reach them. */
  function ParseInt(s: string): (r: Option<int>)
    ensures r.Some? <==> StartsNumber(s)
    ensures r.Some? && s[0] == '-' ==> r.value <= 0
    ensures r.Some? && s[0] != '-' ==> r.value >= 0
  {
    var signed := |s| > 0 && (s[0] == '-' || s[0] == '+');
    var body := if signed then s[1..] else s;
    var d := DigitPrefix(body);
    var magnitude: int := DigitsValue(d);
    if d == [] then None
    else if signed && s[0] == '-' then Some(-magnitude)
    else Some(magnitude)
  }

  /** vertex_label: a number n becomes 'v' + n; a string is already a label. */
  function VertexLabel(v: VertexRef): (r: string)
    ensures v.Text? ==> r == v.s
    ensures v.Num? ==> |r| >= 2 && r[0] == 'v' && AllDigits(r[2..]) && IsDigit(r[|r| - 1])
    ensures v.Num? ==> if v.n < 0 then r[1] == '-' else IsDigit(r[1])
  {
    match v
    case Num(n) => "v" + IntToDecimal(n)
    case Text(s) => s
  }

  /** vertex_idx: a number is its own index; a label drops its first character and is parsed. */
  function VertexIdx(v: VertexRef): (r: Option<int>)
    ensures v.Num? ==> r == Some(v.n)
    ensures v.Text? ==> (r.Some? <==> |v.s| > 1 && StartsNumber(v.s[1..]))
    ensures v.Text? && |v.s| > 1 && IsDigit(v.s[1]) && r.Some? ==> r.value >= 0
  {
    match v
    case Num(n) => Some(n)
    case Text(s) => ParseInt(if s == [] then [] else s[1..])
  }

  /** The label of one half of a split vertex: v + '_in' or v + '_out'. */
  function HalfLabel(n: int, h: Half): string
  {
    VertexLabel(Num(n)) + Suffix(h)
  }

  /** The min_vertex_cut translation: replace(/_in$/, '') on a half label. */
  function StripIn(s: string): (r: string)
    ensures |s| >= 3 && s[|s| - 3..] == "_in" ==> s == r + "_in"
    ensures !(|s| >= 3 && s[|s| - 3..] == "_in") ==> r == s
  {
    if |s| >= 3 && s[|s| - 3..] == "_in" then s[..|s| - 3] else s
  }

  lemma {:induction false} DecimalValue(n: nat)
    ensures DigitsValue(NatToDecimal(n)) == n
  {
    if n >= 10 {
      var s := NatToDecimal(n / 10);
      DecimalValue(n / 10);
      assert (s + [DigitChar(n % 10)])[..|s|] == s;
    }
  }

  lemma {:induction false} PrefixStopsAtNonDigit(d: string, rest: string)
    requires AllDigits(d)
    requires rest == [] || !IsDigit(rest[0])
    ensures DigitPrefix(d + rest) == d
  {
    if d != [] {
      assert (d + rest)[1..] == d[1..] + rest;
      PrefixStopsAtNonDigit(d[1..], rest);
    } else {
      assert d + rest == rest;
    }
  }

  /** A digit string followed by anything that does not start with a digit parses to its value. */
  lemma ParseDigitsThen(d: string, rest: string)
    requires d != [] && AllDigits(d)
    requires rest == [] || !IsDigit(rest[0])
    ensures ParseInt(d + rest) == Some(DigitsValue(d))
  {
    PrefixStopsAtNonDigit(d, rest);
    var plain := d + rest;
    assert plain[0] == d[0] && IsDigit(plain[0]);
  }

  /** The same digits after a minus sign parse to the negated value. */
  lemma ParseMinusDigitsThen(d: string, rest: string)
    requires d != [] && AllDigits(d)
    requires rest == [] || !IsDigit(rest[0])
    ensures ParseInt(['-'] + (d + rest)) == Some(-(DigitsValue(d) as int))
  {
    PrefixStopsAtNonDigit(d, rest);
    var plain := d + rest;
    var minus := ['-'] + plain;
    assert minus[0] == '-';
    assert minus[1..] == plain;
    assert DigitPrefix(minus[1..]) == d;
  }

  /** The digits of an id, followed by anything that does not start with a digit, parse back to the id. */
  lemma ParseDecimalThen(n: int, rest: string)
    requires rest == [] || !IsDigit(rest[0])
    ensures ParseInt(IntToDecimal(n) + rest) == Some(n)
  {
    var m: nat := if n < 0 then -n else n;
    var d := NatToDecimal(m);
    DecimalValue(m);
    if n < 0 {
      ParseMinusDigitsThen(d, rest);
      assert IntToDecimal(n) + rest == ['-'] + (d + rest);
    } else {
      ParseDigitsThen(d, rest);
    }
  }

  /** vertex_idx(vertex_label(n)) == n for every integer n. */
  lemma LabelRoundTrip(n: int)
    ensures VertexIdx(Text(VertexLabel(Num(n)))) == Some(n)
  {
    ParseDecimalThen(n, []);
    assert ("v" + IntToDecimal(n))[1..] == IntToDecimal(n) + [];
  }

  /** Distinct ids get distinct labels, so keying the networks by id loses nothing. */
  lemma LabelInjective(a: int, b: int)
    requires VertexLabel(Num(a)) == VertexLabel(Num(b))
    ensures a == b
  {
    LabelRoundTrip(a);
    LabelRoundTrip(b);
  }

  /** min_vertex_cut recovers the id from either half of a split vertex: the '_in' suffix is
      stripped, and parseInt stops at the '_' of an '_out' suffix. */
  lemma HalfLabelRoundTrip(n: int, h: Half)
    ensures VertexIdx(Text(StripIn(HalfLabel(n, h)))) == Some(n)
  {
    match h
    case InHalf => InLabelRoundTrip(n);
    case OutHalf => OutLabelRoundTrip(n);
  }

  lemma InLabelRoundTrip(n: int)
    ensures VertexIdx(Text(StripIn(HalfLabel(n, InHalf)))) == Some(n)
  {
    var name := VertexLabel(Num(n));
    var s := name + "_in";
    assert s[|s| - 3..] == "_in";
    assert StripIn(s) + "_in" == s;
    assert StripIn(s) == name;
    LabelRoundTrip(n);
  }

  lemma OutLabelRoundTrip(n: int)
    ensures VertexIdx(Text(StripIn(HalfLabel(n, OutHalf)))) == Some(n)
  {
    var d := IntToDecimal(n);
    assert VertexLabel(Num(n)) == "v" + d;
    var s := VertexLabel(Num(n)) + "_out";
    assert s == "v" + (d + "_out");
    assert s[|s| - 3..] == "out";
    assert StripIn(s) == s;
    ParseDecimalThen(n, "_out");
    assert s[1..] == d + "_out";
    assert VertexIdx(Text(s)) == ParseInt(d + "_out");
  }

  /** vertex_idx reads the id off a half label too: parseInt stops at the '_' of the suffix. */
  lemma HalfLabelIdx(n: int, h: Half)
    ensures VertexIdx(Text(HalfLabel(n, h))) == Some(n)
  {
    var suffix := Suffix(h);
    assert suffix[0] == '_';
    ParseDecimalThen(n, suffix);
    var d := IntToDecimal(n);
    assert VertexLabel(Num(n)) == "v" + d;
    var s := HalfLabel(n, h);
    assert s == "v" + (d + suffix);
    assert s[1..] == d + suffix;
    assert VertexIdx(Text(s)) == ParseInt(d + suffix);
  }

  /** Half labels of distinct vertices, or of distinct halves, differ. */
  lemma HalfLabelInjective(a: int, ha: Half, b: int, hb: Half)
    requires HalfLabel(a, ha) == HalfLabel(b, hb)
    ensures a == b && ha == hb
  {
    HalfLabelRoundTrip(a, ha);
    HalfLabelRoundTrip(b, hb);
  }
}
