/** Names that a pool gives to the instances it creates.
    A pool names its n-th instance after its prefab: the prefab name, an
    underscore, and the counter in decimal, padded with one leading zero
    below ten ("Gem_07", "Gem_12"). C#'s int-to-string conversion is modelled
    for non-negative values only. */
module Naming {

  predicate IsDigit(ch: char) {
    '0' <= ch <= '9'
  }

  predicate IsDigits(s: string) {
    forall i :: 0 <= i < |s| ==> IsDigit(s[i])
  }

  function DigitChar(d: nat): (ch: char)
    requires d < 10
    ensures IsDigit(ch) && ch as int - '0' as int == d
  {
    ('0' as int + d) as char
  }

  function DigitValue(ch: char): (d: nat)
    requires IsDigit(ch)
    ensures d < 10 && DigitChar(d) == ch
  {
    ch as int - '0' as int
  }

  /** The decimal representation of n, most significant digit first, as
      C# prints a non-negative int. */
  function Decimal(n: nat): (s: string)
    ensures 1 <= |s| && IsDigits(s)
    ensures (s[0] == '0') <==> n == 0
    ensures (|s| == 1) <==> n < 10
  {
    if n < 10 then [DigitChar(n)] else Decimal(n / 10) + [DigitChar(n % 10)]
  }

  /** Reads a string of decimal digits back as a number; leading zeros are
      allowed and do not change the value. */
  function ParseDecimal(s: string): nat
    requires IsDigits(s)
  {
    if s == [] then 0 else ParseDecimal(s[..|s| - 1]) * 10 + DigitValue(s[|s| - 1])
  }

  lemma {:induction false} ParseDecimalOfDecimal(n: nat)
    ensures ParseDecimal(Decimal(n)) == n
  {
    var s := Decimal(n);
    if n >= 10 {
      ParseDecimalOfDecimal(n / 10);
      assert s[..|s| - 1] == Decimal(n / 10);
      assert DigitValue(s[|s| - 1]) == n % 10;
    } else {
      assert s[..|s| - 1] == [];
    }
  }

  /** The suffix appended to the prefab name for counter value id. */
  function Suffix(id: nat): string {
    if id >= 10 then "_" + Decimal(id) else "_0" + Decimal(id)
  }

  /** The name the pool gives to the instance created when its counter
      stood at id. */
  function InstanceName(prefabName: string, id: nat): string {
    prefabName + Suffix(id)
  }

  /** A generated name is the prefab name, an underscore and at least one
      decimal digit, and nothing else. */
  lemma InstanceNameShape(prefabName: string, id: nat)
    ensures var name := InstanceName(prefabName, id);
      && |prefabName| + 2 <= |name|
      && name[..|prefabName|] == prefabName && name[|prefabName|] == '_'
      && IsDigits(name[|prefabName| + 1..])
  {
    var name := InstanceName(prefabName, id);
    assert name[|prefabName| + 1..] == Suffix(id)[1..];
  }

  /** The counter can be read back from a generated name: the digits after
      the prefab name and the underscore spell the counter, whether or not
      it was padded. */
  lemma InstanceIdReadBack(prefabName: string, id: nat)
    ensures ParseDecimal(InstanceName(prefabName, id)[|prefabName| + 1..]) == id
  {
    InstanceNameShape(prefabName, id);
    var name := InstanceName(prefabName, id);
    var digits := name[|prefabName| + 1..];
    assert digits == Suffix(id)[1..];
    if id >= 10 {
      assert digits == Decimal(id);
      ParseDecimalOfDecimal(id);
    } else {
      assert digits == ['0', DigitChar(id)];
      assert digits[..1] == ['0'];
      assert ParseDecimal(['0']) == 0 by {
        assert ['0'][..0] == [];
      }
    }
  }

  /** Two counter values give the same name exactly when they are equal, so
      a pool whose counter only grows never repeats a name. */
  lemma InstanceNameInjective(prefabName: string, i: nat, j: nat)
    ensures InstanceName(prefabName, i) == InstanceName(prefabName, j) <==> i == j
  {
    if InstanceName(prefabName, i) == InstanceName(prefabName, j) {
      InstanceIdReadBack(prefabName, i);
      InstanceIdReadBack(prefabName, j);
    }
  }
}
