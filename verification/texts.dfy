/** Cutting and joining sequences, and numbers and bytes written as text. */
module Texts {
  import opened Prelude

  function Split<T(==)>(s: seq<T>, sep: T): (parts: seq<seq<T>>)
    ensures |parts| > 0
  {
    if s == [] then [[]]
    else
      var rest := Split(s[1..], sep);
      if s[0] == sep then [[]] + rest else [[s[0]] + rest[0]] + rest[1..]
  }

  lemma {:induction false} SplitAtFirst<T>(s: seq<T>, sep: T, i: nat)
    requires i < |s| && s[i] == sep && sep !in s[..i]
    ensures Split(s, sep) == [s[..i]] + Split(s[i + 1..], sep)
  {
    if i > 0 {
      assert s[0] in s[..i];
      assert s[1..][..i - 1] == s[..i][1..];
      SplitAtFirst(s[1..], sep, i - 1);
      assert [s[0]] + s[1..][..i - 1] == s[..i];
    } else {
      assert s[..0] == [];
    }
  }

  lemma {:induction false} SplitNone<T>(s: seq<T>, sep: T)
    requires sep !in s
    ensures Split(s, sep) == [s]
  {
    if s != [] {
      SplitNone(s[1..], sep);
      assert [s[0]] + s[1..] == s;
    }
  }

  function FirstIndex<T(==)>(s: seq<T>, c: T): (i: int)
    ensures -1 <= i < |s|
    ensures i < 0 <==> c !in s
    ensures i >= 0 ==> s[i] == c && c !in s[..i]
  {
    if s == [] then -1
    else if s[0] == c then 0
    else
      var i := FirstIndex(s[1..], c);
      assert c in s <==> c in s[1..];
      assert i >= 0 ==> s[..i + 1] == [s[0]] + s[1..][..i];
      if i < 0 then -1 else i + 1
  }

  function Join<T>(parts: seq<seq<T>>, sep: T): seq<T> {
    if parts == [] then []
    else if |parts| == 1 then parts[0]
    else parts[0] + [sep] + Join(parts[1..], sep)
  }

  function SplitAll<T(==)>(parts: seq<seq<T>>, sep: T): seq<seq<T>> {
    if parts == [] then [] else Split(parts[0], sep) + SplitAll(parts[1..], sep)
  }

  lemma SplitCons<T>(c: T, s: seq<T>, sep: T)
    ensures Split([c] + s, sep) ==
      var rest := Split(s, sep);
      if c == sep then [[]] + rest else [[c] + rest[0]] + rest[1..]
  {
    assert ([c] + s)[1..] == s;
  }

  lemma Regroup<T>(c: T, a: seq<seq<T>>, b: seq<seq<T>>)
    requires a != []
    ensures [[]] + (a + b) == [[]] + a + b
    ensures [[c] + (a + b)[0]] + (a + b)[1..] == [[c] + a[0]] + a[1..] + b
  {
    assert (a + b)[1..] == a[1..] + b;
  }

  lemma {:induction false} SplitAround<T>(a: seq<T>, sep: T, b: seq<T>)
    ensures Split(a + [sep] + b, sep) == Split(a, sep) + Split(b, sep)
  {
    hide Split;
    if a == [] {
      SplitNone([], sep);
      SplitCons(sep, b, sep);
      assert [] + [sep] + b == [sep] + b && [] + a == a;
    } else {
      var c, rest := a[0], a[1..];
      SplitAround(rest, sep, b);
      assert a + [sep] + b == [c] + (rest + [sep] + b) && a == [c] + rest;
      SplitCons(c, rest, sep);
      SplitCons(c, rest + [sep] + b, sep);
      Regroup(c, Split(rest, sep), Split(b, sep));
    }
  }

  /** Cutting what was joined cuts every part. */
  lemma {:induction false} SplitOfJoin<T>(parts: seq<seq<T>>, sep: T)
    requires parts != []
    ensures Split(Join(parts, sep), sep) == SplitAll(parts, sep)
  {
    if |parts| == 1 {
      assert parts[1..] == [];
      assert SplitAll(parts, sep) == Split(parts[0], sep) + [];
    } else {
      SplitOfJoin(parts[1..], sep);
      SplitAround(parts[0], sep, Join(parts[1..], sep));
    }
  }

  lemma {:induction false} SplitAllWhole<T>(parts: seq<seq<T>>, sep: T)
    requires forall i :: 0 <= i < |parts| ==> sep !in parts[i]
    ensures SplitAll(parts, sep) == parts
  {
    if parts != [] {
      SplitNone(parts[0], sep);
      SplitAllWhole(parts[1..], sep);
      assert [parts[0]] + parts[1..] == parts;
    }
  }

  /** Parts that do not contain the separator can be recovered. */
  lemma SplitJoin<T>(parts: seq<seq<T>>, sep: T)
    requires parts != [] && forall i :: 0 <= i < |parts| ==> sep !in parts[i]
    ensures Split(Join(parts, sep), sep) == parts
  {
    SplitOfJoin(parts, sep);
    SplitAllWhole(parts, sep);
  }

  // ---------------------------------------------------------------- numbers

  function Digit(n: nat): char
    requires n < 10
  {
    '0' + n as char
  }

  predicate IsDigit(c: char) { '0' <= c <= '9' }

  function DigitValue(c: char): (n: nat)
    requires IsDigit(c)
    ensures n < 10
  {
    c as int - '0' as int
  }

  function Decimal(n: nat): (s: string)
    ensures s != [] && forall i :: 0 <= i < |s| ==> IsDigit(s[i])
  {
    if n < 10 then [Digit(n)] else Decimal(n / 10) + [Digit(n % 10)]
  }

  /** The number a row of digits stands for. */
  function DigitsValue(s: string): nat
    requires forall i :: 0 <= i < |s| ==> IsDigit(s[i])
  {
    if s == [] then 0 else DigitsValue(s[..|s| - 1]) * 10 + DigitValue(s[|s| - 1])
  }

  lemma {:induction false} DecimalReadsBack(n: nat)
    ensures DigitsValue(Decimal(n)) == n
  {
    if n >= 10 {
      DecimalReadsBack(n / 10);
      var s := Decimal(n);
      assert s[..|s| - 1] == Decimal(n / 10);
    }
  }

  // ------------------------------------------------------------------ bytes

  type Byte = b: int | 0 <= b < 256

  function HexDigit(n: nat): char
    requires n < 16
  {
    if n < 10 then Digit(n) else 'a' + (n - 10) as char
  }

  function HexValue(c: char): (r: Option<nat>)
    ensures r.Some? ==> r.value < 16
  {
    if IsDigit(c) then Some(DigitValue(c))
    else if 'a' <= c <= 'f' then Some(c as int - 'a' as int + 10)
    else if 'A' <= c <= 'F' then Some(c as int - 'A' as int + 10)
    else None
  }

  function Hex(data: seq<Byte>): string {
    if data == [] then ""
    else [HexDigit(data[0] / 16), HexDigit(data[0] % 16)] + Hex(data[1..])
  }

  function FromHex(s: string): Option<seq<Byte>> {
    if s == "" then Some([])
    else if |s| == 1 || HexValue(s[0]).None? || HexValue(s[1]).None? || FromHex(s[2..]).None? then None
    else Some([HexValue(s[0]).value * 16 + HexValue(s[1]).value] + FromHex(s[2..]).value)
  }

  lemma {:induction false} HexReadsBack(data: seq<Byte>)
    ensures FromHex(Hex(data)) == Some(data)
    ensures forall i :: 0 <= i < |Hex(data)| ==> Hex(data)[i] != ' '
  {
    if data != [] {
      HexReadsBack(data[1..]);
      var text, high, low := Hex(data), data[0] / 16, data[0] % 16;
      assert text[2..] == Hex(data[1..]) && text[0] == HexDigit(high) && text[1] == HexDigit(low);
      assert HexValue(HexDigit(high)) == Some(high) && HexValue(HexDigit(low)) == Some(low);
      assert [data[0]] + data[1..] == data;
    }
  }

  const HEX_DIGITS := "0123456789abcdef"
  const CAPITAL_HEX_DIGITS := "0123456789ABCDEF"

  /** The sixteen digits, in small letters when written and in either when read. */
  lemma HexDigitsAre(n: nat)
    requires n < 16
    ensures HexDigit(n) == HEX_DIGITS[n]
    ensures HexValue(HEX_DIGITS[n]) == Some(n) && HexValue(CAPITAL_HEX_DIGITS[n]) == Some(n)
  {
  }

  lemma OnlyHexDigitsHaveValues(c: char)
    ensures HexValue(c).Some? <==> c in HEX_DIGITS + CAPITAL_HEX_DIGITS
  {
    if HexValue(c).Some? {
      var n := HexValue(c).value;
      assert c == HEX_DIGITS[n] || c == CAPITAL_HEX_DIGITS[n];
    }
    if c in HEX_DIGITS {
      var i :| 0 <= i < 16 && HEX_DIGITS[i] == c;
      HexDigitsAre(i);
    } else if c in CAPITAL_HEX_DIGITS {
      var i :| 0 <= i < 16 && CAPITAL_HEX_DIGITS[i] == c;
      HexDigitsAre(i);
    }
  }

  /** A byte is written with its high digit first, and so is a number. */
  lemma HighDigitFirst(b: Byte)
    ensures Hex([b]) == [HEX_DIGITS[b / 16], HEX_DIGITS[b % 16]]
  {
    HexDigitsAre(b / 16);
    HexDigitsAre(b % 16);
    assert Hex([]) == "";
  }

  /** Bytes are written in their order. */
  lemma {:induction false} BytesInOrder(data: seq<Byte>, i: nat)
    requires i < |data|
    ensures |Hex(data)| == 2 * |data| && Hex(data)[2 * i..2 * i + 2] == Hex([data[i]])
  {
    assert Hex([data[i]][1..]) == "" && Hex([data[0]][1..]) == "";
    if |data| > 1 {
      BytesInOrder(data[1..], if i > 0 then i - 1 else 0);
    } else {
      assert data == [data[i]];
    }
  }

  lemma HighDecimalFirst(n: nat, d: nat)
    requires n > 0 && d < 10
    ensures Decimal(10 * n + d) == Decimal(n) + [Digit(d)] && Decimal(d) == ["0123456789"[d]]
    ensures DigitValue("0123456789"[d]) == d
  {
  }

  /** Exactly the texts of pairs of digits are read. */
  lemma {:induction false} FromHexReadsPairs(s: string)
    ensures FromHex(s).Some? <==> |s| % 2 == 0 && forall i :: 0 <= i < |s| ==> HexValue(s[i]).Some?
  {
    if |s| >= 2 {
      FromHexReadsPairs(s[2..]);
      assert forall i :: 0 <= i < |s| - 2 ==> s[2..][i] == s[i + 2];
      if forall i :: 0 <= i < |s| - 2 ==> HexValue(s[2..][i]).Some? {
        forall i | 2 <= i < |s| ensures HexValue(s[i]).Some? {
          assert HexValue(s[2..][i - 2]).Some?;
        }
      }
    }
  }
}
