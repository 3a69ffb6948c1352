/**
 * `create_system_prompt`: the system prompt is one f-string that embeds the rendered
 * knowledge sources, the Python rendering of the domain list and the decimal rendering
 * of the search-result limit between fixed stretches of instruction text. The
 * instruction wording itself is not modelled: it is the `Wording` parameter.
 */
module Prompt {
  import opened Text

  /** The four fixed stretches of text around the three substituted values. */
  datatype Wording = Wording(intro: string, beforeDomains: string, beforeMaxResults: string, closing: string)

  // ---------------------------------------------------------------------------
  // str(int): decimal rendering
  // ---------------------------------------------------------------------------

  function DigitChar(d: nat): char
    requires d < 10
  {
    "0123456789"[d]
  }

  predicate IsDigit(c: char)
  {
    '0' <= c <= '9'
  }

  function DigitValue(c: char): nat
    requires IsDigit(c)
  {
    c as int - '0' as int
  }

  /** The decimal digits of `n`, most significant first, without leading zeros. */
  function Digits(n: nat): (s: string)
    ensures |s| >= 1
    ensures forall i :: 0 <= i < |s| ==> IsDigit(s[i])
  {
    if n < 10 then [DigitChar(n)] else Digits(n / 10) + [DigitChar(n % 10)]
  }

  /** Python's `str` of an integer: an optional minus sign followed by the digits. */
  function IntToString(n: int): string
  {
    if n < 0 then "-" + Digits(-n) else Digits(n)
  }

  /** The number a string of decimal digits denotes. */
  function DecimalValue(s: string): nat
    requires forall i :: 0 <= i < |s| ==> IsDigit(s[i])
  {
    if s == [] then 0 else 10 * DecimalValue(s[..|s| - 1]) + DigitValue(s[|s| - 1])
  }

  /** Reading a decimal string back: the inverse of `IntToString`. */
  function ParseInt(s: string): (r: int)
    requires |s| >= 1
    requires forall i :: 0 <= i < |s| ==> IsDigit(s[i]) || (i == 0 && s[i] == '-')
    requires s[0] == '-' ==> |s| >= 2
  {
    if s[0] == '-' then 0 - DecimalValue(s[1..]) as int else DecimalValue(s)
  }

  lemma {:induction false} DigitsDenote(n: nat)
    ensures DecimalValue(Digits(n)) == n
    ensures Digits(n)[0] != '0' || n == 0
  {
    var s := Digits(n);
    if n >= 10 {
      DigitsDenote(n / 10);
      assert s[..|s| - 1] == Digits(n / 10);
      assert s[0] == Digits(n / 10)[0];
    }
  }

  /** `str(n)` has no leading zero and reads back as `n`. */
  lemma IntToStringRoundTrip(n: int)
    ensures var s := IntToString(n);
      |s| >= 1 && ParseInt(s) == n
      && (s[0] == '-' <==> n < 0)
      && (s[0] == '-' ==> s[1] != '0')
      && (s[0] == '0' ==> s == "0")
  {
    var s := IntToString(n);
    if n < 0 {
      var t := Digits(-n);
      DigitsDenote(-n);
      assert s == "-" + t;
      assert s[1..] == t;
      assert s[1] == t[0];
    } else {
      DigitsDenote(n);
      if n < 10 {
        assert s == [DigitChar(n)];
      }
    }
  }

  // ---------------------------------------------------------------------------
  // str(list of str): the domain list as Python prints it
  // ---------------------------------------------------------------------------

  function Quoted(d: string): string
  {
    "'" + d + "'"
  }

  /** The quoted items separated by ", ". */
  function JoinQuoted(ds: seq<string>): string
  {
    if ds == [] then ""
    else if |ds| == 1 then Quoted(ds[0])
    else JoinQuoted(ds[..|ds| - 1]) + ", " + Quoted(ds[|ds| - 1])
  }

  /** `str(domains)`: the quoted domains between brackets. */
  function ListToString(ds: seq<string>): string
  {
    "[" + JoinQuoted(ds) + "]"
  }

  /** Every domain of the list appears, quoted, in its Python rendering. */
  lemma {:induction false} ListToStringQuotesEach(ds: seq<string>, j: nat)
    requires j < |ds|
    ensures Occurs(Quoted(ds[j]), ListToString(ds))
  {
    var k := QuotedAt(ds, j);
    var q := Quoted(ds[j]);
    var whole := ListToString(ds);
    assert whole == "[" + JoinQuoted(ds) + "]";
    assert whole[1 + k..1 + k + |q|] == JoinQuoted(ds)[k..k + |q|];
    assert OccursAt(q, whole, 1 + k);
  }

  lemma {:induction false} QuotedAt(ds: seq<string>, j: nat) returns (k: nat)
    requires j < |ds|
    ensures OccursAt(Quoted(ds[j]), JoinQuoted(ds), k)
  {
    var q := Quoted(ds[j]);
    if |ds| == 1 {
      k := 0;
      assert JoinQuoted(ds)[0..|q|] == q;
    } else {
      var prefix := JoinQuoted(ds[..|ds| - 1]) + ", ";
      assert JoinQuoted(ds) == prefix + Quoted(ds[|ds| - 1]);
      if j == |ds| - 1 {
        k := |prefix|;
        assert JoinQuoted(ds)[k..k + |q|] == q;
      } else {
        assert ds[..|ds| - 1][j] == ds[j];
        k := QuotedAt(ds[..|ds| - 1], j);
        assert JoinQuoted(ds)[k..k + |q|] == JoinQuoted(ds[..|ds| - 1])[k..k + |q|];
      }
    }
  }

  // ---------------------------------------------------------------------------
  // The prompt
  // ---------------------------------------------------------------------------

  /** The system prompt: the three substituted values, each after its stretch of instruction text. */
  function SystemPrompt(w: Wording, knowledgeSources: string, domains: seq<string>, maxResults: int): string
  {
    w.intro + knowledgeSources + w.beforeDomains + ListToString(domains)
      + w.beforeMaxResults + IntToString(maxResults) + w.closing
  }

  /**
   * The knowledge-sources text, the rendered domain list and the rendered result limit
   * appear verbatim in the prompt, in that order, at the positions the wording leaves for them.
   */
  lemma SystemPromptEmbeds(w: Wording, knowledgeSources: string, domains: seq<string>, maxResults: int)
    ensures var p := SystemPrompt(w, knowledgeSources, domains, maxResults);
      var atDomains := |w.intro| + |knowledgeSources| + |w.beforeDomains|;
      var atMaxResults := atDomains + |ListToString(domains)| + |w.beforeMaxResults|;
      OccursAt(knowledgeSources, p, |w.intro|)
      && OccursAt(ListToString(domains), p, atDomains)
      && OccursAt(IntToString(maxResults), p, atMaxResults)
      && |p| == atMaxResults + |IntToString(maxResults)| + |w.closing|
  {
    var ks, dl, mr := knowledgeSources, ListToString(domains), IntToString(maxResults);
    var a := w.intro;
    var b := a + ks + w.beforeDomains;
    var c := b + dl + w.beforeMaxResults;
    var p := c + mr + w.closing;
    assert p == SystemPrompt(w, knowledgeSources, domains, maxResults);
    assert p[|a|..|a| + |ks|] == ks;
    assert p[|b|..|b| + |dl|] == dl;
    assert p[|c|..|c| + |mr|] == mr;
  }
}
