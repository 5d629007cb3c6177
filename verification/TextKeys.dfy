/** The text keys of candidates: symbol, strategy and a number, joined by two colons. */
module TextKeys {
  import opened Sequences

  function Digits(n: nat): (r: string)
    ensures r != [] && (|r| == 1 <==> n < 10)
    ensures forall i :: 0 <= i < |r| ==> '0' <= r[i] <= '9'
  {
    var last := ['0' + (n % 10) as char];
    if n < 10 then last else Digits(n / 10) + last
  }

  function Decimal(n: int): string {
    if n < 0 then ['-'] + Digits(-n) else Digits(n)
  }

  function KeyOf(symbol: string, strategy: string, rank: int): string {
    symbol + ([':', ':'] + (strategy + ([':', ':'] + Decimal(rank))))
  }

  function Joined(symbol: string, strategy: string): string {
    symbol + ([':', ':'] + strategy)
  }

  // ---------- Equal keys ----------

  lemma {:induction false} DigitsInjective(m: nat, n: nat)
    requires Digits(m) == Digits(n)
    ensures m == n
  {
    var a, b := Digits(m), Digits(n);
    assert a[|a| - 1] == '0' + (m % 10) as char && b[|b| - 1] == '0' + (n % 10) as char;
    if m >= 10 {
      assert a[..|a| - 1] == Digits(m / 10) && b[..|b| - 1] == Digits(n / 10);
      DigitsInjective(m / 10, n / 10);
    }
  }

  lemma DecimalInjective(m: int, n: int)
    requires Decimal(m) == Decimal(n)
    ensures m == n
  {
    if m < 0 {
      assert Decimal(n)[0] == '-';
      assert Decimal(m)[1..] == Digits(-m) && Decimal(n)[1..] == Digits(-n);
      DigitsInjective(-m, -n);
    } else {
      assert Decimal(m)[0] == Decimal(n)[0] != '-';
      DigitsInjective(m, n);
    }
  }

  lemma {:induction false} DigitsHaveNoColon(n: nat)
    ensures ':' !in Digits(n)
  {
  }

  lemma DecimalHasNoColon(n: int)
    ensures ':' !in Decimal(n)
  {
    DigitsHaveNoColon(if n < 0 then -n else n);
  }

  /** What follows the last two colons is determined, and so is what stands before. */
  lemma SplitAtLastColons(u: string, d: string, v: string, e: string)
    requires ':' !in d && ':' !in e
    requires u + ([':', ':'] + d) == v + ([':', ':'] + e)
    ensures u == v && d == e
  {
    var s, t := u + ([':', ':'] + d), v + ([':', ':'] + e);
    assert s[|u| + 1] == ':' && t[|v| + 1] == ':';
    assert forall i :: |u| + 2 <= i < |s| ==> s[i] == d[i - |u| - 2];
    assert forall i :: |v| + 2 <= i < |t| ==> t[i] == e[i - |v| - 2];
    assert |u| == |v|;
    assert s[..|u|] == u && t[..|v|] == v;
    assert s[|u| + 2..] == d && t[|v| + 2..] == e;
  }

  lemma KeyForm(symbol: string, strategy: string, rank: int)
    ensures KeyOf(symbol, strategy, rank) == Joined(symbol, strategy) + ([':', ':'] + Decimal(rank))
  {
    var tail := [':', ':'] + Decimal(rank);
    ConcatAssociative([':', ':'], strategy, tail);
    ConcatAssociative(symbol, [':', ':'] + strategy, tail);
  }

  /** Two keys are equal exactly when the ranks are and symbol and strategy join to the same text. */
  lemma KeyEqualIff(s: string, x: string, m: int, t: string, y: string, n: int)
    ensures KeyOf(s, x, m) == KeyOf(t, y, n) <==> m == n && Joined(s, x) == Joined(t, y)
  {
    KeyForm(s, x, m);
    KeyForm(t, y, n);
    DecimalHasNoColon(m);
    DecimalHasNoColon(n);
    if KeyOf(s, x, m) == KeyOf(t, y, n) {
      SplitAtLastColons(Joined(s, x), Decimal(m), Joined(t, y), Decimal(n));
      DecimalInjective(m, n);
    }
  }

  // ---------- Colons in symbols ----------

  function ColonAt(s: string): nat {
    if s == [] || s[0] == ':' then 0 else ColonAt(s[1..]) + 1
  }

  lemma {:induction false} ColonAfter(a: string, x: string)
    requires ':' !in a
    ensures ColonAt(a + ([':', ':'] + x)) == |a|
  {
    var s := a + ([':', ':'] + x);
    if a == [] {
      assert s[0] == ':';
    } else {
      ColonAfter(a[1..], x);
      assert s[0] == a[0] && s[1..] == a[1..] + ([':', ':'] + x);
    }
  }

  /** Text up to the first colon is determined, and so is what follows the two colons. */
  lemma SplitAtColons(a: string, x: string, b: string, y: string)
    requires ':' !in a && ':' !in b
    requires a + ([':', ':'] + x) == b + ([':', ':'] + y)
    ensures a == b && x == y
  {
    var s, t := a + ([':', ':'] + x), b + ([':', ':'] + y);
    ColonAfter(a, x);
    ColonAfter(b, y);
    assert s[..|a|] == a && t[..|b|] == b;
    assert s[|a| + 2..] == x && t[|b| + 2..] == y;
  }

  /** Some strategies make two names share a key: the symbols differ, one with its colons starting the other. */
  ghost predicate CanCollide(s: string, t: string, rank: int) {
    exists x, y :: (s != t || x != y) && KeyOf(s, x, rank) == KeyOf(t, y, rank)
  }

  lemma CollideAs(s: string, t: string, rank: int)
    requires s != t && s + [':', ':'] <= t + [':', ':']
    ensures CanCollide(s, t, rank)
  {
    var x := (t + [':', ':'])[|s| + 2..];
    assert Joined(s, x) == (s + [':', ':']) + x == t + [':', ':'] == Joined(t, []);
    KeyEqualIff(s, x, rank, t, [], rank);
  }

  lemma PrefixesMeet(a: string, x: string, b: string, y: string)
    requires a + x == b + y
    ensures a <= b || b <= a
    ensures a == b ==> x == y
  {
    assert (a + x)[|a|..] == x && (b + y)[|b|..] == y;
    assert if |a| <= |b| then a <= b else b <= a;
  }

  lemma KeysCollideIff(s: string, t: string, rank: int)
    ensures CanCollide(s, t, rank) <==>
            s != t && (s + [':', ':'] <= t + [':', ':'] || t + [':', ':'] <= s + [':', ':'])
  {
    if x, y :| (s != t || x != y) && KeyOf(s, x, rank) == KeyOf(t, y, rank) {
      KeyEqualIff(s, x, rank, t, y, rank);
      ConcatAssociative(s, [':', ':'], x);
      ConcatAssociative(t, [':', ':'], y);
      PrefixesMeet(s + [':', ':'], x, t + [':', ':'], y);
    }
    if s != t && s + [':', ':'] <= t + [':', ':'] {
      CollideAs(s, t, rank);
    }
    if s != t && t + [':', ':'] <= s + [':', ':'] {
      CollideAs(t, s, rank);
      var x, y :| (t != s || x != y) && KeyOf(t, x, rank) == KeyOf(s, y, rank);
      assert KeyOf(s, y, rank) == KeyOf(t, x, rank);
    }
  }

  // ---------- Spelling ----------

  /** The number a text of digits stands for. */
  function ValueOf(digits: string): nat
    requires forall i :: 0 <= i < |digits| ==> '0' <= digits[i] <= '9'
  {
    if digits == [] then 0
    else ValueOf(digits[..|digits| - 1]) * 10 + (digits[|digits| - 1] - '0') as nat
  }

  /** A number is spelled in decimal, without leading zeros. */
  lemma {:induction false} DigitsSpell(n: nat)
    ensures ValueOf(Digits(n)) == n
    ensures |Digits(n)| > 1 ==> Digits(n)[0] != '0'
  {
    var digits := Digits(n);
    var k := |digits| - 1;
    assert digits[k] == '0' + (n % 10) as char;
    if n >= 10 {
      assert digits[..k] == Digits(n / 10);
      DigitsSpell(n / 10);
    } else {
      assert digits[..k] == [];
    }
  }

  lemma KeyExample()
    ensures KeyOf("SPY", "Trend", 12) == "SPY::Trend::12"
    ensures KeyOf("SPY", "Trend", -3) == "SPY::Trend::-3"
  {
    assert Digits(12) == Digits(1) + "2" == "12";
  }
}
