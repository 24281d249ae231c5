/** The map key of a stat: its name, a dash and the decimal stamp of its bin. */
module BinKeys {
  function Digit(d: int): (c: char)
    requires 0 <= d < 10
    ensures c != '-' && c as int - '0' as int == d
  {
    ('0' as int + d) as char
  }

  function Natural(n: nat): (s: string)
    ensures |s| > 0 && '-' !in s
    decreases n
  {
    if n < 10 then [Digit(n)] else Natural(n / 10) + [Digit(n % 10)]
  }

  function Decimal(n: int): (s: string)
  {
    if n < 0 then "-" + Natural(0 - n) else Natural(n)
  }

  function MapKey(name: string, bin: int): (k: string)
  {
    name + "-" + Decimal(bin)
  }

  lemma {:induction false} NaturalInjective(m: nat, n: nat)
    requires Natural(m) == Natural(n)
    ensures m == n
    decreases m
  {
    var a, b := Natural(m), Natural(n);
    assert a[|a| - 1] == Digit(m % 10) && b[|b| - 1] == Digit(n % 10);
    if m >= 10 && n >= 10 {
      assert a[..|a| - 1] == Natural(m / 10) && b[..|b| - 1] == Natural(n / 10);
      NaturalInjective(m / 10, n / 10);
    }
  }

  lemma DashApart(a: string, d: string, b: string, e: string)
    requires a + "-" + d == b + "-" + e && '-' !in e && |d| <= |e|
    ensures a == b && d == e
  {
    var s, t := a + "-" + d, b + "-" + e;
    assert s[|a|] == '-';
    assert |a| == |b|;
    assert a == s[..|a|] && b == t[..|b|];
    assert d == s[|a| + 1..] && e == t[|b| + 1..];
  }

  /** The sign of a stamp reads as part of the name. */
  lemma SignedKey(name: string, bin: int)
    requires bin < 0
    ensures MapKey(name, bin) == MapKey(name + "-", 0 - bin)
  {
    hide Natural;
    assert "-" + ("-" + Natural(0 - bin)) == "-" + "-" + Natural(0 - bin);
  }

  lemma NaturalKeys(name: string, bin: nat, name': string, bin': nat)
    ensures MapKey(name, bin) == MapKey(name', bin') <==> name == name' && bin == bin'
  {
    hide Natural;
    if MapKey(name, bin) == MapKey(name', bin') {
      if |Natural(bin)| <= |Natural(bin')| {
        DashApart(name, Natural(bin), name', Natural(bin'));
      } else {
        DashApart(name', Natural(bin'), name, Natural(bin));
      }
      NaturalInjective(bin, bin');
    }
  }

  /** Two stats share a map key exactly when they have the same name and bin, or when their bins are opposite
      and the name of the one after 1970 is the other's with a dash added. */
  lemma MapKeyExactly(name: string, bin: int, name': string, bin': int)
    ensures MapKey(name, bin) == MapKey(name', bin') <==>
              || (name == name' && bin == bin')
              || (bin < 0 && bin' == 0 - bin && name' == name + "-")
              || (bin' < 0 && bin == 0 - bin' && name == name' + "-")
  {
    hide MapKey;
    var n, b := if bin < 0 then name + "-" else name, if bin < 0 then 0 - bin else bin;
    var n', b' := if bin' < 0 then name' + "-" else name', if bin' < 0 then 0 - bin' else bin';
    if bin < 0 {
      SignedKey(name, bin);
    }
    if bin' < 0 {
      SignedKey(name', bin');
    }
    NaturalKeys(n, b, n', b');
    if bin < 0 && bin' < 0 && n == n' {
      assert name == n[..|n| - 1] && name' == n'[..|n'| - 1];
    }
  }

  function Value(s: string): (n: int)
    decreases |s|
  {
    if |s| == 0 then 0 else 10 * Value(s[..|s| - 1]) + (s[|s| - 1] as int - '0' as int)
  }

  /** The digits of a stamp are read back in the decimal system. */
  lemma {:induction false} NaturalBack(n: nat)
    ensures Value(Natural(n)) == n
    decreases n
  {
    var s := Natural(n);
    if n >= 10 {
      assert s[..|s| - 1] == Natural(n / 10);
      NaturalBack(n / 10);
    } else {
      assert s[..0] == "";
    }
  }
}
