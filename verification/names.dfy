/** Cell names of the form "cube x y z" (main.go:102 and main.go:195).
    The name is the key shared by the material table, the base-position table
    and the scene graph, so it must identify its coordinate triple uniquely.
    `ParseName` is a left inverse of `Name`, from which injectivity follows.
 */
module Names {

  import opened Wrappers

  /** The decimal digit character for `d`. */
  function DigitChar(d: nat): (c: char)
    requires d < 10
    ensures '0' <= c <= '9'
    ensures (c as int) - ('0' as int) == d
  {
    ['0', '1', '2', '3', '4', '5', '6', '7', '8', '9'][d]
  }

  predicate IsDigits(s: string) {
    forall i :: 0 <= i < |s| ==> '0' <= s[i] <= '9'
  }

  /** Go's `%d` rendering of a non-negative integer: no sign, no leading zeros. */
  function Decimal(n: nat): (s: string)
    ensures |s| >= 1 && IsDigits(s)
    ensures |s| > 1 ==> s[0] != '0'
  {
    if n < 10 then [DigitChar(n)] else Decimal(n / 10) + [DigitChar(n % 10)]
  }

  /** Reads a string of digits back as a number (most significant first). */
  function ParseDecimal(s: string): nat
    requires IsDigits(s)
  {
    if |s| == 0 then 0
    else ParseDecimal(s[..|s| - 1]) * 10 + ((s[|s| - 1] as int) - ('0' as int))
  }

  lemma {:induction false} DecimalRoundTrip(n: nat)
    ensures ParseDecimal(Decimal(n)) == n
  {
    if n >= 10 {
      var s := Decimal(n);
      assert s[..|s| - 1] == Decimal(n / 10);
      DecimalRoundTrip(n / 10);
    }
  }

  /** Splits `s` at every space, like Go's `strings.Split(s, " ")`. */
  function Fields(s: string): (r: seq<string>)
    ensures |r| >= 1
  {
    if |s| == 0 then [""]
    else if s[0] == ' ' then [""] + Fields(s[1..])
    else
      var rest := Fields(s[1..]);
      [[s[0]] + rest[0]] + rest[1..]
  }

  lemma {:induction false} FieldsNoSpace(p: string)
    requires ' ' !in p
    ensures Fields(p) == [p]
  {
    if |p| > 0 {
      assert ' ' !in p[1..];
      FieldsNoSpace(p[1..]);
      assert [p[0]] + p[1..] == p;
    }
  }

  lemma {:induction false} FieldsSplit(p: string, q: string)
    requires ' ' !in p
    ensures Fields(p + " " + q) == [p] + Fields(q)
  {
    var s := p + " " + q;
    if |p| == 0 {
      assert s == " " + q;
      assert s[1..] == q;
    } else {
      assert s[1..] == p[1..] + " " + q;
      assert ' ' !in p[1..];
      FieldsSplit(p[1..], q);
      assert [p[0]] + p[1..] == p;
    }
  }

  lemma DigitsHaveNoSpace(s: string)
    requires IsDigits(s)
    ensures ' ' !in s
  {
  }

  const Prefix: string := "cube "

  /** The name main.go gives the cell at indices (x, y, z). */
  function Name(x: nat, y: nat, z: nat): (s: string)
    ensures |s| > |Prefix| && s[..|Prefix|] == Prefix
  {
    Prefix + Decimal(x) + " " + Decimal(y) + " " + Decimal(z)
  }

  /** Recovers the triple from a name; `None` for strings that are not
      of the form "cube a b c" with three decimal fields. */
  function ParseName(s: string): Option<(nat, nat, nat)>
  {
    if |s| < |Prefix| || s[..|Prefix|] != Prefix then None
    else
      var f := Fields(s[|Prefix|..]);
      if |f| == 3 && IsDigits(f[0]) && IsDigits(f[1]) && IsDigits(f[2])
      then Some((ParseDecimal(f[0]), ParseDecimal(f[1]), ParseDecimal(f[2])))
      else None
  }

  lemma NameRoundTrip(x: nat, y: nat, z: nat)
    ensures ParseName(Name(x, y, z)) == Some((x, y, z))
  {
    var dx, dy, dz := Decimal(x), Decimal(y), Decimal(z);
    DigitsHaveNoSpace(dx);
    DigitsHaveNoSpace(dy);
    DigitsHaveNoSpace(dz);
    var s := Name(x, y, z);
    var body := dx + " " + (dy + " " + dz);
    assert s == Prefix + body;
    assert s[|Prefix|..] == body;
    FieldsSplit(dx, dy + " " + dz);
    FieldsSplit(dy, dz);
    FieldsNoSpace(dz);
    assert Fields(body) == [dx, dy, dz];
    DecimalRoundTrip(x);
    DecimalRoundTrip(y);
    DecimalRoundTrip(z);
  }

  /** Distinct triples get distinct names. */
  lemma NameInjective(x: nat, y: nat, z: nat, x': nat, y': nat, z': nat)
    ensures Name(x, y, z) == Name(x', y', z') <==> (x, y, z) == (x', y', z')
  {
    NameRoundTrip(x, y, z);
    NameRoundTrip(x', y', z');
  }
}
