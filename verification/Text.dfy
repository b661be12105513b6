/** Byte strings: literals, decimals, splitting at a separator. */
module Text {
  import opened Bytes

  /** The bytes of an ASCII literal. */
  function Ascii(s: string): (r: seq<byte>)
    requires forall i :: 0 <= i < |s| ==> s[i] < 128 as char
    ensures |r| == |s|
  {
    seq(|s|, i requires 0 <= i < |s| => s[i] as int)
  }

  // ---------------------------------------------------------------------
  // Decimals
  // ---------------------------------------------------------------------

  predicate IsDigit(c: byte) { 48 <= c <= 57 }

  predicate AllDigits(s: seq<byte>) { forall i :: 0 <= i < |s| ==> IsDigit(s[i]) }

  function Decimal(n: nat): (s: seq<byte>)
    ensures s != [] && AllDigits(s)
  {
    if n < 10 then [48 + n] else Decimal(n / 10) + [48 + n % 10]
  }

  /** The value of a digit string, leading zeros allowed. */
  function DecimalValue(s: seq<byte>): nat
    requires AllDigits(s)
  {
    if s == [] then 0 else 10 * DecimalValue(s[..|s| - 1]) + (s[|s| - 1] - 48)
  }

  lemma {:induction false} DecimalInverse(n: nat)
    ensures DecimalValue(Decimal(n)) == n
  {
    var s := Decimal(n);
    if n >= 10 {
      DecimalInverse(n / 10);
      assert s[..|s| - 1] == Decimal(n / 10);
    } else {
      assert s[..0] == [];
    }
  }

  /** The digit strings Itoa writes: no leading zero, except for zero itself. */
  predicate NoLeadingZero(s: seq<byte>) { |s| == 1 || (s != [] && s[0] != 48) }

  lemma {:induction false} DecimalLead(n: nat)
    ensures NoLeadingZero(Decimal(n)) && (n > 0 ==> Decimal(n)[0] != 48)
  {
    if n >= 10 { DecimalLead(n / 10); }
  }

  lemma DecimalStep(v: nat, d: nat)
    requires v > 0 && d < 10
    ensures Decimal(10 * v + d) == Decimal(v) + [48 + d]
  {
    assert (10 * v + d) / 10 == v && (10 * v + d) % 10 == d;
  }

  lemma {:induction false} LeadCounts(s: seq<byte>)
    requires AllDigits(s) && s != [] && s[0] != 48
    ensures DecimalValue(s) > 0 && s == Decimal(DecimalValue(s))
  {
    var front, last := s[..|s| - 1], s[|s| - 1];
    if front == [] {
      assert s == [last];
    } else {
      LeadCounts(front);
      DecimalStep(DecimalValue(front), last - 48);
      assert s == front + [last];
    }
  }

  /** A digit string is the decimal of its value exactly without a leading zero. */
  lemma DecimalIff(s: seq<byte>)
    requires AllDigits(s) && s != []
    ensures s == Decimal(DecimalValue(s)) <==> NoLeadingZero(s)
  {
    DecimalLead(DecimalValue(s));
    if s[0] != 48 {
      LeadCounts(s);
    } else if |s| == 1 {
      assert s[..0] == [];
    }
  }

  lemma {:induction false} ZeroInFront(s: seq<byte>)
    requires AllDigits(s)
    ensures DecimalValue([48] + s) == DecimalValue(s)
  {
    var more := [48] + s;
    if s == [] {
      assert more[..0] == [];
    } else {
      assert more[..|more| - 1] == [48] + s[..|s| - 1];
      ZeroInFront(s[..|s| - 1]);
    }
  }

  /** strconv.Itoa. */
  function SignedDecimal(n: int): seq<byte> { if n < 0 then [45] + Decimal(-n) else Decimal(n) }

  // ---------------------------------------------------------------------
  // Splitting
  // ---------------------------------------------------------------------

  /** The first index of `c`, or the length. */
  function IndexOf(s: seq<byte>, c: byte): (i: nat)
    ensures i <= |s|
    ensures i < |s| ==> s[i] == c
    ensures forall j :: 0 <= j < i ==> s[j] != c
  {
    if s == [] || s[0] == c then 0 else 1 + IndexOf(s[1..], c)
  }

  lemma CutPrefix(pre: seq<byte>, u: seq<byte>, x: seq<byte>)
    requires pre <= u
    ensures u == pre + x <==> u[|pre|..] == x
  {
    assert u == pre + u[|pre|..];
    assert (pre + x)[|pre|..] == x;
  }

  lemma IndexOfFirst(a: seq<byte>, c: byte, b: seq<byte>)
    requires forall i :: 0 <= i < |a| ==> a[i] != c
    ensures IndexOf(a + [c] + b, c) == |a|
  {
    var s := a + [c] + b;
    assert s[|a|] == c;
    assert forall i :: 0 <= i < |a| ==> s[i] == a[i];
  }

  function Split(s: seq<byte>, c: byte): (parts: seq<seq<byte>>)
    ensures parts != []
    decreases |s|
  {
    var i := IndexOf(s, c);
    if i == |s| then [s] else [s[..i]] + Split(s[i + 1..], c)
  }

  function Join(parts: seq<seq<byte>>, c: byte): seq<byte>
    requires parts != []
  {
    if |parts| == 1 then parts[0] else parts[0] + [c] + Join(parts[1..], c)
  }

  predicate Without(s: seq<byte>, c: byte) { forall i :: 0 <= i < |s| ==> s[i] != c }

  lemma {:induction false} SplitInvertsJoin(parts: seq<seq<byte>>, c: byte)
    requires parts != [] && forall i :: 0 <= i < |parts| ==> Without(parts[i], c)
    ensures Split(Join(parts, c), c) == parts
    decreases |parts|
  {
    assert Without(parts[0], c);
    if |parts| == 1 {
    } else {
      var rest := Join(parts[1..], c);
      var s := parts[0] + [c] + rest;
      SplitInvertsJoin(parts[1..], c);
      IndexOfFirst(parts[0], c, rest);
      assert s[..|parts[0]|] == parts[0] && s[|parts[0]| + 1..] == rest;
      assert parts == [parts[0]] + parts[1..];
    }
  }

  lemma {:induction false} JoinInvertsSplit(s: seq<byte>, c: byte)
    ensures Join(Split(s, c), c) == s
    ensures forall i :: 0 <= i < |Split(s, c)| ==> Without(Split(s, c)[i], c)
    decreases |s|
  {
    var i := IndexOf(s, c);
    if i < |s| {
      JoinInvertsSplit(s[i + 1..], c);
      var rest := Split(s[i + 1..], c);
      assert Split(s, c)[1..] == rest;
      assert s == s[..i] + [c] + s[i + 1..];
    }
  }
}
