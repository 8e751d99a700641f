/**
 The names under which a persistent vector's elements are registered.
 */
module ElemNames {
  function Digit(d: nat): char
    requires d < 10
  {
    "0123456789"[d]
  }

  /** `%u`. */
  function Decimal(n: nat): (s: string)
    ensures |s| > 0
    ensures n < 10 ==> |s| == 1
    ensures 10 <= n < 100 ==> |s| == 2
  {
    if n < 10 then [Digit(n)] else Decimal(n / 10) + [Digit(n % 10)]
  }

  /** `snprintf(elem_name, 100, "%s_%u", m_name, i)`: cut off after 99 characters. */
  function ElemName(name: string, i: nat): string {
    var full := name + "_" + Decimal(i);
    if |full| <= 99 then full else full[..99]
  }

  function Namer(name: string): nat -> string {
    (i: nat) => ElemName(name, i)
  }

  /** The names a vector needs within the table's 100 slots are all different. */
  ghost predicate Apart(name: string, elem: nat -> string) {
    && (forall i: nat, j: nat | i < j < 100 :: elem(i) != elem(j))
    && (forall i: nat | i < 100 :: elem(i) != name)
  }

  lemma DecimalInjective(i: nat, j: nat)
    requires i < 100 && j < 100 && Decimal(i) == Decimal(j)
    ensures i == j
  {
    assert forall a: nat, b: nat | a < 10 && b < 10 && Digit(a) == Digit(b) :: a == b;
    if i < 10 {
      assert |Decimal(j)| == 1;
      assert Decimal(i)[0] == Decimal(j)[0];
    } else {
      assert |Decimal(j)| == 2;
      assert Decimal(i)[0] == Decimal(j)[0] && Decimal(i)[1] == Decimal(j)[1];
      assert Decimal(i / 10) == [Digit(i / 10)] && Decimal(j / 10) == [Digit(j / 10)];
    }
  }

  /** As far as the table's 100 slots reach, element names are different from each
      other and from the metric's name exactly when the metric's name leaves room
      for the index. */
  lemma ElemNamesDistinct(name: string)
    ensures |name| <= 96 <==>
      forall i: nat, j: nat | i < j < 100 :: ElemName(name, i) != ElemName(name, j)
    ensures |name| <= 96 ==> forall i: nat | i < 100 :: ElemName(name, i) != name
  {
    if |name| <= 96 {
      forall i: nat | i < 100 ensures ElemName(name, i) == name + "_" + Decimal(i) && ElemName(name, i) != name { }
      forall i: nat, j: nat | i < j < 100 ensures ElemName(name, i) != ElemName(name, j) {
        if ElemName(name, i) == ElemName(name, j) {
          assert (name + "_" + Decimal(i))[|name| + 1..] == Decimal(i);
          assert (name + "_" + Decimal(j))[|name| + 1..] == Decimal(j);
          DecimalInjective(i, j);
        }
      }
    } else {
      var one, ten := name + "_" + Decimal(1), name + "_" + Decimal(10);
      assert Decimal(10) == Decimal(1) + [Digit(0)];
      assert one[..99] == ten[..99];
      assert ElemName(name, 1) == ElemName(name, 10);
    }
  }

  /** Within the table's 100 slots, and for names that leave room, the number follows an
      underscore, in decimal without leading zeros. */
  lemma ElemNameIs(name: string, i: nat)
    requires |name| <= 96 && i < 100
    ensures i < 10 ==> ElemName(name, i) == name + "_" + [('0' as int + i) as char]
    ensures i >= 10 ==> ElemName(name, i) == name + "_" + [('0' as int + i / 10) as char, ('0' as int + i % 10) as char]
  {
    DigitIs(i / 10);
    DigitIs(i % 10);
    if i >= 10 { assert Decimal(i) == Decimal(i / 10) + [Digit(i % 10)] && Decimal(i / 10) == [Digit(i / 10)]; }
  }

  lemma DigitIs(d: nat)
    requires d < 10
    ensures Digit(d) == ('0' as int + d) as char
  {
  }
}
