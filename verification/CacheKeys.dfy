/** The strings under which the payment method filter remembers answers, and why equal strings
    mean equal questions. */
module CacheKeys {

  function Digit(d: nat): char
    requires d < 10
  {
    "0123456789"[d]
  }

  /** The decimal notation a number is cast to. */
  function Decimal(n: nat): string {
    if n < 10 then [Digit(n)] else Decimal(n / 10) + [Digit(n % 10)]
  }

  predicate IsDigit(c: char) { '0' <= c <= '9' }

  lemma {:induction false} DecimalIsDigits(n: nat)
    ensures Decimal(n) != [] && forall i :: 0 <= i < |Decimal(n)| ==> IsDigit(Decimal(n)[i])
  {
    if n >= 10 {
      DecimalIsDigits(n / 10);
    }
  }

  /** The number that a string of digits stands for. */
  function Reads(s: string): int {
    if s == "" then 0 else 10 * Reads(s[..|s| - 1]) + (s[|s| - 1] as int - '0' as int)
  }

  lemma {:induction false} DecimalReads(n: nat)
    ensures Reads(Decimal(n)) == n
  {
    if n >= 10 {
      DecimalReads(n / 10);
      assert Decimal(n)[..|Decimal(n)| - 1] == Decimal(n / 10);
    } else {
      assert Decimal(n)[..0] == "";
    }
  }

  lemma DecimalWidth(n: nat)
    ensures |Decimal(n)| == 1 <==> n < 10
  {
    if n >= 10 {
      DecimalIsDigits(n / 10);
    }
  }

  lemma {:induction false} DecimalInjective(m: nat, n: nat)
    requires Decimal(m) == Decimal(n)
    ensures m == n
  {
    var a, b := Decimal(m), Decimal(n);
    assert a[|a| - 1] == Digit(m % 10) && b[|b| - 1] == Digit(n % 10);
    DigitInjective(m % 10, n % 10);
    DecimalWidth(m);
    DecimalWidth(n);
    if m >= 10 {
      assert a[..|a| - 1] == Decimal(m / 10) && b[..|b| - 1] == Decimal(n / 10);
      DecimalInjective(m / 10, n / 10);
    }
  }

  lemma DigitInjective(d: nat, e: nat)
    requires d < 10 && e < 10 && Digit(d) == Digit(e)
    ensures d == e
  {
  }

  /** Where the first separator stands decides both parts. */
  lemma SplitsUniquely(sep: char, a: string, b: string, c: string, d: string)
    requires sep !in a && sep !in c && a + [sep] + b == c + [sep] + d
    ensures a == c && b == d
  {
    var s := a + [sep] + b;
    assert s[|a|] == sep && s[|c|] == sep;
    assert forall i :: 0 <= i < |a| ==> s[i] == a[i] && a[i] != sep;
    assert forall i :: 0 <= i < |c| ==> s[i] == c[i] && c[i] != sep;
    assert |a| == |c|;
    assert s[..|a|] == a && s[..|c|] == c;
    assert s[|a| + 1..] == b && s[|c| + 1..] == d;
  }

  lemma DigitsHaveNo(sep: char, n: nat)
    requires !IsDigit(sep)
    ensures sep !in Decimal(n)
  {
    DecimalIsDigits(n);
  }

  const INTEGRATIONS := ["charge_flow", "direct_card_processing", "iframe", "lightbox",
                         "mobile_web_view", "payment_link", "payment_page", "terminal"]

  lemma IntegrationsHaveNoBar(k: nat)
    requires k < |INTEGRATIONS|
    ensures '|' !in INTEGRATIONS[k]
  {
  }

  /** What the answer depends on: the space and integration asked, and the checkout payload. */
  datatype Question = Question(spaceId: nat, integration: string, fingerprint: string)

  /** The string that is hashed into the memo key. */
  function MemoString(q: Question): string {
    Decimal(q.spaceId) + "|" + (q.integration + "|" + q.fingerprint)
  }

  lemma MemoStringDecodes(p: Question, q: Question)
    requires '|' !in p.integration && '|' !in q.integration
    requires MemoString(p) == MemoString(q)
    ensures p == q
  {
    DigitsHaveNo('|', p.spaceId);
    DigitsHaveNo('|', q.spaceId);
    SplitsUniquely('|', Decimal(p.spaceId), p.integration + "|" + p.fingerprint,
                   Decimal(q.spaceId), q.integration + "|" + q.fingerprint);
    SplitsUniquely('|', p.integration, p.fingerprint, q.integration, q.fingerprint);
    DecimalInjective(p.spaceId, q.spaceId);
  }

  /** A separator inside the integration would merge two questions into one key. */
  lemma BarInIntegrationIsAmbiguous()
    ensures var p, q := Question(1, "a|b", "c"), Question(1, "a", "b|c");
            p != q && MemoString(p) == MemoString(q)
  {
    assert "a|b" + "|" + "c" == "a" + "|" + "b|c";
  }

  const POSSIBLE_METHODS_CACHE_PREFIX := "plnn_possible_methods_"

  function PossibleMethodsKey(stateKey: string, transactionId: nat): string {
    POSSIBLE_METHODS_CACHE_PREFIX + stateKey + "_" + Decimal(transactionId)
  }

  /** The state key has a fixed width, so the transaction follows at a fixed place. */
  lemma PossibleMethodsKeyDecodes(s: string, m: nat, t: string, n: nat)
    requires |s| == |t| && PossibleMethodsKey(s, m) == PossibleMethodsKey(t, n)
    ensures s == t && m == n
  {
    var k := PossibleMethodsKey(s, m);
    var w := |POSSIBLE_METHODS_CACHE_PREFIX|;
    assert k[w..w + |s|] == s && k[w..w + |t|] == t;
    assert k[w + |s| + 1..] == Decimal(m) && k[w + |t| + 1..] == Decimal(n);
    DecimalInjective(m, n);
  }

  function ConfigurationKey(spaceId: nat, languageId: string, versionId: string): string {
    Decimal(spaceId) + "_" + (languageId + "_" + versionId)
  }

  lemma ConfigurationKeyDecodes(m: nat, l: string, v: string, n: nat, k: string, u: string)
    requires '_' !in l && '_' !in k
    requires ConfigurationKey(m, l, v) == ConfigurationKey(n, k, u)
    ensures m == n && l == k && v == u
  {
    DigitsHaveNo('_', m);
    DigitsHaveNo('_', n);
    SplitsUniquely('_', Decimal(m), l + "_" + v, Decimal(n), k + "_" + u);
    SplitsUniquely('_', l, v, k, u);
    DecimalInjective(m, n);
  }
}
