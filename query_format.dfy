/** The query-format renderer of the `queryformat` test tool: a parsed format
    is a list of tokens (literal strings, tags with an optional field width,
    arrays and conditionals), and rendering concatenates what each token
    writes. The parser is not modelled; formats are given as values. */
module QueryFormat {
  import opened Decimal

  datatype Option<+T> = None | Some(value: T)

  /** What the parser accepts as a field width: an optional `-`, then at least
      one digit. */
  predicate IsFieldWidthText(s: string) {
    var digits := if |s| > 0 && s[0] == '-' then s[1..] else s;
    |digits| > 0 && AllDigits(digits)
  }

  type FieldWidthText = s: string | IsFieldWidthText(s) witness "0"

  /** A `%{name}` tag, `%15{name}` or `%-15{name}` with a field width. */
  datatype Tag = Tag(name: string, fieldw: Option<FieldWidthText>)

  datatype Token =
    | StringToken(value: string)
    | TagToken(tag: Tag)
    | ArrayToken(format: Format)
    | ConditionalToken

  datatype Format = Format(tokens: seq<Token>)

  // ---------------------------------------------------------------------
  // Field widths

  /** A leading `-` asks for left adjustment. */
  predicate LeftAdjust(fw: FieldWidthText) {
    fw[0] == '-'
  }

  /** The digits after the optional `-`. */
  function WidthDigits(fw: FieldWidthText): (d: string)
    ensures |d| > 0 && AllDigits(d)
  {
    if LeftAdjust(fw) then fw[1..] else fw
  }

  /** The width those digits denote (`strtoul(…, 10)`). */
  function Width(fw: FieldWidthText): nat {
    DecimalValue(WidthDigits(fw))
  }

  /** Zero padding is chosen by a leading `0` digit, and only when padding on
      the left. */
  function PadChar(fw: FieldWidthText): char {
    if LeftAdjust(fw) || WidthDigits(fw)[0] != '0' then ' ' else '0'
  }

  function Repeat(c: char, n: nat): (s: string)
    ensures |s| == n && forall i :: 0 <= i < n ==> s[i] == c
  {
    seq(n, _ => c)
  }

  function Max(a: nat, b: nat): nat {
    if a < b then b else a
  }

  /** What a tag writes for the value `val`: the value padded to the field
      width, never truncated. */
  function RenderTag(fieldw: Option<FieldWidthText>, val: string): (r: string)
    ensures fieldw.None? ==> r == val
    ensures fieldw.Some? ==> |r| == Max(|val|, Width(fieldw.value))
    ensures fieldw.Some? && |val| >= Width(fieldw.value) ==> r == val
    ensures fieldw.Some? && LeftAdjust(fieldw.value) ==>
      r[..|val|] == val && forall i :: |val| <= i < |r| ==> r[i] == ' '
    ensures fieldw.Some? && !LeftAdjust(fieldw.value) ==>
      r[|r| - |val|..] == val && forall i :: 0 <= i < |r| - |val| ==> r[i] == PadChar(fieldw.value)
  {
    if fieldw.Some? then
      var fw := Width(fieldw.value);
      if |val| < fw then
        var pad := Repeat(PadChar(fieldw.value), fw - |val|);
        if LeftAdjust(fieldw.value) then val + pad else pad + val
      else
        val
    else
      val
  }

  /** A left-adjusted tag writes the value followed by spaces up to the
      width: `%-015{…}` pads with spaces, as a `0` after `-` is no flag. */
  lemma LeftAdjustPadsWithSpaces(fw: FieldWidthText, val: string)
    requires LeftAdjust(fw)
    ensures RenderTag(Some(fw), val) == val + Repeat(' ', Max(|val|, Width(fw)) - |val|)
  {
    if |val| >= Width(fw) {
      assert val + Repeat(' ', 0) == val;
    }
  }

  /** `%-015{…}` writes what `%-15{…}` writes: after `-`, a `0` is only a
      leading digit of the width. */
  lemma LeftAdjustZeroIsDigit(digits: string, val: string)
    requires |digits| > 0 && AllDigits(digits)
    ensures IsFieldWidthText("-0" + digits) && IsFieldWidthText("-" + digits)
    ensures RenderTag(Some("-0" + digits), val) == RenderTag(Some("-" + digits), val)
  {
    assert ("-0" + digits)[1..] == seq(1, _ => '0') + digits;
    assert ("-" + digits)[1..] == digits;
    LeadingZeros(1, digits);
    LeftAdjustPadsWithSpaces("-0" + digits, val);
    LeftAdjustPadsWithSpaces("-" + digits, val);
  }

  /** Zero padding exactly when the field-width text itself starts with `0`:
      `%015{…}` pads with zeros, `%15{…}` and `%-015{…}` with spaces. */
  lemma PadCharIsZero(fw: FieldWidthText)
    ensures PadChar(fw) == '0' <==> fw[0] == '0'
  {
  }

  /** The `0` flag does not change the width itself: `%015{…}` and `%15{…}`
      pad to the same length, with a different pad character. */
  lemma ZeroFlagKeepsWidth(digits: string)
    requires |digits| > 0 && AllDigits(digits) && digits[0] != '-'
    ensures IsFieldWidthText("0" + digits) && IsFieldWidthText(digits)
    ensures Width("0" + digits) == Width(digits)
    ensures PadChar("0" + digits) == '0'
  {
    assert "0" + digits == seq(1, _ => '0') + digits;
    LeadingZeros(1, digits);
  }

  // ---------------------------------------------------------------------
  // Rendering a format

  /** The default data getter (`DummyDataGetter`): the tag's own name. */
  function DummyGet(tag: Tag): string {
    tag.name
  }

  /** What the tokens of a format write, in order. `idx` is the array index
      handed to tags, which do not use it. */
  function RenderTokens(ts: seq<Token>, get: Tag -> string, idx: nat): string
    decreases ts
  {
    if ts == [] then "" else RenderTokens(ts[..|ts| - 1], get, idx) + RenderToken(ts[|ts| - 1], get, idx)
  }

  function RenderToken(t: Token, get: Tag -> string, idx: nat): string
    decreases t
  {
    match t
    case StringToken(v) => v
    case TagToken(tag) => RenderTag(tag.fieldw, get(tag))
    case ArrayToken(f) =>
      RenderTokens(f.tokens, get, 0) + RenderTokens(f.tokens, get, 1) + RenderTokens(f.tokens, get, 2)
    case ConditionalToken => ""
  }

  function RenderFormat(f: Format, get: Tag -> string, idx: nat): string {
    RenderTokens(f.tokens, get, idx)
  }

  /** Rendering distributes over concatenation of token lists. */
  lemma {:induction false} RenderTokensAppend(ts: seq<Token>, us: seq<Token>, get: Tag -> string, idx: nat)
    ensures RenderTokens(ts + us, get, idx) == RenderTokens(ts, get, idx) + RenderTokens(us, get, idx)
    decreases us
  {
    if us == [] {
      assert ts + us == ts;
    } else {
      var us' := us[..|us| - 1];
      assert (ts + us)[..|ts + us| - 1] == ts + us';
      assert (ts + us)[|ts + us| - 1] == us[|us| - 1];
      RenderTokensAppend(ts, us', get, idx);
    }
  }

  /** A format's rendering is the concatenation of its tokens' renderings. */
  lemma {:induction false} RenderTokensIsConcat(ts: seq<Token>, get: Tag -> string, idx: nat)
    ensures ts != [] ==> RenderTokens(ts, get, idx) == RenderToken(ts[0], get, idx) + RenderTokens(ts[1..], get, idx)
  {
    if ts != [] {
      assert ts == [ts[0]] + ts[1..];
      RenderTokensAppend([ts[0]], ts[1..], get, idx);
      assert RenderTokens([ts[0]], get, idx) == RenderToken(ts[0], get, idx) by {
        assert [ts[0]][..0] == [];
      }
    }
  }

  /** Conditionals write nothing: removing one leaves the output unchanged. */
  lemma ConditionalInvisible(ts: seq<Token>, us: seq<Token>, get: Tag -> string, idx: nat)
    ensures RenderTokens(ts + [ConditionalToken] + us, get, idx) == RenderTokens(ts + us, get, idx)
  {
    RenderTokensAppend(ts + [ConditionalToken], us, get, idx);
    RenderTokensAppend(ts, us, get, idx);
    assert (ts + [ConditionalToken])[..|ts|] == ts;
  }

  /** A literal string writes exactly its value where it stands. */
  lemma StringInPlace(ts: seq<Token>, v: string, us: seq<Token>, get: Tag -> string, idx: nat)
    ensures RenderTokens(ts + [StringToken(v)] + us, get, idx) ==
      RenderTokens(ts, get, idx) + v + RenderTokens(us, get, idx)
  {
    RenderTokensAppend(ts + [StringToken(v)], us, get, idx);
    assert (ts + [StringToken(v)])[..|ts|] == ts;
  }

  /** The index handed down is never looked at. */
  lemma {:induction false} RenderTokensIgnoresIndex(ts: seq<Token>, get: Tag -> string, i: nat, j: nat)
    ensures RenderTokens(ts, get, i) == RenderTokens(ts, get, j)
    decreases ts
  {
    if ts != [] {
      RenderTokensIgnoresIndex(ts[..|ts| - 1], get, i, j);
    }
  }

  /** An array writes its sub-format three times over, once per index, and
      all three copies are the same. */
  lemma ArrayRendersThreeCopies(f: Format, get: Tag -> string, idx: nat)
    ensures var s := RenderFormat(f, get, 0);
      RenderToken(ArrayToken(f), get, idx) == s + s + s
  {
    RenderTokensIgnoresIndex(f.tokens, get, 1, 0);
    RenderTokensIgnoresIndex(f.tokens, get, 2, 0);
  }

  /** The tokens of the format `process` is called with in the tool's `main`
      (`=== %15{name}-%015{version}-%-15{release}.%-015{arch}\n[%{requirenevrs}\n]`). */
  function SampleFormat(): Format {
    Format([
      StringToken("=== "), TagToken(Tag("name", Some("15"))),
      StringToken("-"), TagToken(Tag("version", Some("015"))),
      StringToken("-"), TagToken(Tag("release", Some("-15"))),
      StringToken("."), TagToken(Tag("arch", Some("-015"))),
      StringToken("\n"),
      ArrayToken(Format([TagToken(Tag("requirenevrs", None)), StringToken("\n")]))])
  }

  /** With the dummy getter each tag writes its own name padded to width 15:
      spaces on the left for `15`, zeros for `015`, spaces on the right for
      `-15` and `-015`; the array repeats its line three times. */
  lemma SampleFormatOutput()
    ensures RenderFormat(SampleFormat(), DummyGet, 0) ==
      "=== " + (Repeat(' ', 11) + "name") + "-" + (Repeat('0', 8) + "version") + "-"
      + ("release" + Repeat(' ', 8)) + "." + ("arch" + Repeat(' ', 11)) + "\n"
      + ("requirenevrs\n" + "requirenevrs\n" + "requirenevrs\n")
  {
    SampleTokenOutputs();
    Concat10(SampleFormat().tokens, DummyGet, 0);
  }

  lemma Concat10(ts: seq<Token>, g: Tag -> string, idx: nat)
    requires |ts| == 10
    ensures RenderTokens(ts, g, idx) ==
      RenderToken(ts[0], g, idx) + RenderToken(ts[1], g, idx) + RenderToken(ts[2], g, idx)
      + RenderToken(ts[3], g, idx) + RenderToken(ts[4], g, idx) + RenderToken(ts[5], g, idx)
      + RenderToken(ts[6], g, idx) + RenderToken(ts[7], g, idx) + RenderToken(ts[8], g, idx)
      + RenderToken(ts[9], g, idx)
  {
    assert ts[..0] == [];
    PrefixStep(ts, 0, g, idx);
    PrefixStep(ts, 1, g, idx);
    PrefixStep(ts, 2, g, idx);
    PrefixStep(ts, 3, g, idx);
    PrefixStep(ts, 4, g, idx);
    PrefixStep(ts, 5, g, idx);
    PrefixStep(ts, 6, g, idx);
    PrefixStep(ts, 7, g, idx);
    PrefixStep(ts, 8, g, idx);
    PrefixStep(ts, 9, g, idx);
    assert ts[..10] == ts;
  }

  /** What each token of the sample format writes with the dummy getter. */
  lemma SampleTokenOutputs()
    ensures RenderToken(SampleFormat().tokens[1], DummyGet, 0) == Repeat(' ', 11) + "name"
    ensures RenderToken(SampleFormat().tokens[3], DummyGet, 0) == Repeat('0', 8) + "version"
    ensures RenderToken(SampleFormat().tokens[5], DummyGet, 0) == "release" + Repeat(' ', 8)
    ensures RenderToken(SampleFormat().tokens[7], DummyGet, 0) == "arch" + Repeat(' ', 11)
    ensures RenderToken(SampleFormat().tokens[9], DummyGet, 0) ==
      "requirenevrs\n" + "requirenevrs\n" + "requirenevrs\n"
  {
    Width15();
    var sub := Format([TagToken(Tag("requirenevrs", None)), StringToken("\n")]);
    assert sub.tokens[..0] == [] && sub.tokens[..2] == sub.tokens;
    PrefixStep(sub.tokens, 0, DummyGet, 0);
    PrefixStep(sub.tokens, 1, DummyGet, 0);
    ArrayRendersThreeCopies(sub, DummyGet, 0);
  }

  lemma Width15()
    ensures Width("15") == 15 && Width("015") == 15 && Width("-15") == 15 && Width("-015") == 15
    ensures PadChar("15") == ' ' && PadChar("015") == '0' && PadChar("-15") == ' ' && PadChar("-015") == ' '
  {
    assert "15"[..1] == "1" && "1"[..0] == "";
    assert WidthDigits("-15") == "15";
    assert WidthDigits("-015") == "015";
    ZeroFlagKeepsWidth("15");
    assert "0" + "15" == "015";
  }

  /** Rendering one more token of a list appends that token's text. */
  lemma PrefixStep(ts: seq<Token>, i: nat, get: Tag -> string, idx: nat)
    requires i < |ts|
    ensures RenderTokens(ts[..i + 1], get, idx) == RenderTokens(ts[..i], get, idx) + RenderToken(ts[i], get, idx)
  {
    assert ts[..i + 1][..i] == ts[..i];
  }

  /** `render(format, item, str, idx)`: a loop over the tokens writing each
      token's text in turn; `get` stands for the data getter on the item. */
  method Render(f: Format, get: Tag -> string, idx: nat) returns (out: string)
    ensures out == RenderFormat(f, get, idx)
    decreases f
  {
    out := "";
    for i := 0 to |f.tokens|
      invariant out == RenderTokens(f.tokens[..i], get, idx)
    {
      var tok := f.tokens[i];
      var s: string;
      match tok {
        case StringToken(v) =>
          s := v;
        case TagToken(tag) =>
          s := RenderTag(tag.fieldw, get(tag));
        case ArrayToken(sub) =>
          assert sub < tok;
          var s0 := Render(sub, get, 0);
          var s1 := Render(sub, get, 1);
          var s2 := Render(sub, get, 2);
          s := s0 + s1 + s2;
        case ConditionalToken =>
          s := "";
      }
      assert f.tokens[..i + 1][..i] == f.tokens[..i];
      out := out + s;
    }
    assert f.tokens[..|f.tokens|] == f.tokens;
  }
}
