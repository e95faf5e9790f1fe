/**
 * Names of data types, file types and adjacency list types as they appear in the metadata
 * files (cpp/src/graphar/types.h, cpp/src/graphar/types.cc), and decimal integers.
 */
module Types {
  import opened Results

  // ----- decimal text -----

  predicate IsDigit(c: char) {
    '0' <= c <= '9'
  }

  predicate AllDigits(s: string) {
    forall i :: 0 <= i < |s| ==> IsDigit(s[i])
  }

  function Digit(d: nat): (c: char)
    requires d < 10
    ensures IsDigit(c) && c as int - '0' as int == d
  {
    (d + '0' as int) as char
  }

  function Decimal(n: nat): string {
    if n < 10 then [Digit(n)] else Decimal(n / 10) + [Digit(n % 10)]
  }

  /** std::to_string */
  function ToString(n: int): (s: string)
    ensures n >= 0 ==> s == Decimal(n)
    ensures n < 0 ==> s == "-" + Decimal(-n)
  {
    if n < 0 then "-" + Decimal(-n) else Decimal(n)
  }

  function Number(digits: string): nat
    requires AllDigits(digits)
  {
    if digits == [] then 0
    else Number(digits[..|digits| - 1]) * 10 + (digits[|digits| - 1] as int - '0' as int)
  }

  /** No sign and no leading zero, and the digits count by position. */
  lemma {:induction false} DecimalReadsBack(n: nat)
    ensures Decimal(n) != [] && AllDigits(Decimal(n)) && Number(Decimal(n)) == n
    ensures n > 0 ==> Decimal(n)[0] != '0'
    ensures n < 10 ==> |Decimal(n)| == 1
  {
    if n >= 10 {
      DecimalReadsBack(n / 10);
      var init := Decimal(n / 10);
      assert Decimal(n)[..|init|] == init;
    } else {
      assert Decimal(n)[..0] == [];
    }
  }

  function DigitCount(s: string): (n: nat)
    ensures n <= |s| && AllDigits(s[..n])
    ensures n < |s| ==> !IsDigit(s[n])
  {
    if s != [] && IsDigit(s[0]) then
      assert forall k :: 0 < k <= |s| ==> s[..k] == [s[0]] + s[1..][..k - 1];
      1 + DigitCount(s[1..])
    else 0
  }

  lemma {:induction false} DigitCountIs(s: string, n: nat)
    requires n <= |s| && AllDigits(s[..n]) && (n < |s| ==> !IsDigit(s[n]))
    ensures DigitCount(s) == n
  {
    if n > 0 {
      assert s[..n][0] == s[0];
      assert s[1..][..n - 1] == s[..n][1..];
      DigitCountIs(s[1..], n - 1);
    }
  }

  predicate IsSpace(c: char) {
    c == ' ' || c == '\t' || c == '\n' || c == '\r' || c as int == 11 || c as int == 12
  }

  function SkipSpaces(s: string): string {
    if s != [] && IsSpace(s[0]) then SkipSpaces(s[1..]) else s
  }

  const INT64_MAX: int := 0x7fff_ffff_ffff_ffff

  /** A stream reading an int64: blanks, sign, digits; 0 on no digits, clipped on overflow. */
  function ParseInt64(s: string): int {
    var t := SkipSpaces(s);
    var signed := t != [] && (t[0] == '-' || t[0] == '+');
    var digits := if signed then t[1..] else t;
    var magnitude: int := Number(digits[..DigitCount(digits)]);
    if signed && t[0] == '-' then
      if magnitude > INT64_MAX + 1 then -INT64_MAX - 1 else -magnitude
    else if magnitude > INT64_MAX then INT64_MAX else magnitude
  }

  lemma Int64ReadsBack(n: int)
    requires -INT64_MAX - 1 <= n <= INT64_MAX
    ensures ParseInt64(ToString(n)) == n
  {
    var digits := Decimal(if n < 0 then -n else n);
    DecimalReadsBack(if n < 0 then -n else n);
    assert digits[..|digits|] == digits;
    DigitCountIs(digits, |digits|);
    assert IsDigit(digits[0]);
    if n < 0 {
      assert ToString(n)[1..] == digits;
    }
  }

  ghost predicate AllSpaces(s: string) {
    forall i :: 0 <= i < |s| ==> s[i] as int in {9, 10, 11, 12, 13, 32}
  }

  lemma {:induction false} SkipsSpaces(blanks: string, s: string)
    requires AllSpaces(blanks) && (s != "" ==> !IsSpace(s[0]))
    ensures SkipSpaces(blanks + s) == s
  {
    if blanks == "" {
      assert blanks + s == s;
    } else {
      assert (blanks + s)[1..] == blanks[1..] + s;
      SkipsSpaces(blanks[1..], s);
    }
  }

  function Clipped(n: int): int {
    if n > INT64_MAX then INT64_MAX else if n < -INT64_MAX - 1 then -INT64_MAX - 1 else n
  }

  function Signed(sign: string, magnitude: nat): int {
    var m: int := magnitude;
    if sign == "-" then -m else m
  }

  lemma SplitDigits(digits: string, rest: string)
    requires AllDigits(digits) && (rest != "" ==> !IsDigit(rest[0]))
    ensures DigitCount(digits + rest) == |digits| && (digits + rest)[..|digits|] == digits
  {
    assert (digits + rest)[..|digits|] == digits;
    DigitCountIs(digits + rest, |digits|);
  }

  lemma SignedParts(s: string, sign: string, digits: string, rest: string)
    requires SkipSpaces(s) == sign + (digits + rest) && sign in {"", "+", "-"} && AllDigits(digits)
    requires rest != "" ==> !IsDigit(rest[0])
    requires digits == "" && sign == "" && rest != "" ==> rest[0] != '+' && rest[0] != '-'
    ensures ParseInt64(s) == Clipped(Signed(sign, Number(digits)))
  {
    hide SkipSpaces, Number, DigitCount;
    SplitDigits(digits, rest);
    var t := sign + (digits + rest);
    if sign == "" {
      assert t == digits + rest;
    } else {
      assert t[1..] == digits + rest && t[0] == sign[0];
    }
  }

  /** Blanks, a sign, digits, and anything after them: the signed number, clipped to 64 bits. */
  lemma Int64Reads(blanks: string, sign: string, digits: string, rest: string)
    requires AllSpaces(blanks) && sign in {"", "+", "-"} && AllDigits(digits)
    requires rest != "" ==> !IsDigit(rest[0])
    requires digits == "" && sign == "" && rest != "" ==>
      rest[0] as int !in {9, 10, 11, 12, 13, 32} && rest[0] != '+' && rest[0] != '-'
    ensures ParseInt64(blanks + sign + digits + rest) == Clipped(Signed(sign, Number(digits)))
  {
    hide ParseInt64, SkipSpaces, Number, Clipped;
    var t := sign + (digits + rest);
    assert blanks + sign + digits + rest == blanks + t;
    SkipsSpaces(blanks, t);
    SignedParts(blanks + t, sign, digits, rest);
  }

  /** The value of digits by position. */
  lemma {:induction false} NumberAppend(a: string, b: string)
    requires AllDigits(a) && AllDigits(b)
    ensures AllDigits(a + b) && Number(a + b) == Number(a) * Power(10, |b|) + Number(b)
  {
    if b == "" {
      assert a + b == a;
    } else {
      var init := b[..|b| - 1];
      NumberAppend(a, init);
      assert (a + b)[..|a + b| - 1] == a + init;
      PositionShift(Number(a), Power(10, |init|), Number(init), b[|b| - 1] as int - '0' as int);
    }
  }

  lemma PositionShift(x: nat, p: nat, y: nat, d: int)
    ensures (x * p + y) * 10 + d == x * (10 * p) + (y * 10 + d)
  {
  }

  function Power(b: nat, e: nat): nat {
    if e == 0 then 1 else b * Power(b, e - 1)
  }

  // ----- data types -----

  datatype DataType =
    | Bool | Int32 | Int64 | Float | Double | String | Date | Timestamp
    | List(child: DataType)
    | UserDefined(name: string)

  function TypeName(t: DataType): string {
    match t
    case Bool => "bool"
    case Int32 => "int32"
    case Int64 => "int64"
    case Float => "float"
    case Double => "double"
    case String => "string"
    case Date => "date"
    case Timestamp => "timestamp"
    case List(child) => "list<" + TypeName(child) + ">"
    case UserDefined(name) => name
  }

  function TypeNameToDataType(s: string): Result<DataType> {
    if s == "bool" then Success(Bool)
    else if s == "int32" then Success(Int32)
    else if s == "int64" then Success(Int64)
    else if s == "float" then Success(Float)
    else if s == "double" then Success(Double)
    else if s == "string" then Success(String)
    else if s == "date" then Success(Date)
    else if s == "timestamp" then Success(Timestamp)
    else if s == "list<int32>" then Success(List(Int32))
    else if s == "list<int64>" then Success(List(Int64))
    else if s == "list<float>" then Success(List(Float))
    else if s == "list<double>" then Success(List(Double))
    else if s == "list<string>" then Success(List(String))
    else Failure(Thrown)
  }

  /** The types a metadata file can name: no user-defined type, no list of bool, date, timestamp or list. */
  predicate Nameable(t: DataType) {
    match t
    case List(child) => child in {Int32, Int64, Float, Double, String}
    case UserDefined(_) => false
    case _ => true
  }

  lemma TypeNameReadsBack(t: DataType)
    ensures TypeNameToDataType(TypeName(t)) == Success(t) <==> Nameable(t)
  {
    if t.List? && Nameable(t) {
      match t.child
      case Int32 => assert TypeName(t) == "list<int32>";
      case Int64 => assert TypeName(t) == "list<int64>";
      case Float => assert TypeName(t) == "list<float>";
      case Double => assert TypeName(t) == "list<double>";
      case String => assert TypeName(t) == "list<string>";
    }
  }

  /** What a data type is called in a file, and that no other text names one. */
  lemma TypeNamesKnown(s: string)
    ensures TypeName(Bool) == "bool" && TypeName(Int32) == "int32" && TypeName(Int64) == "int64"
    ensures TypeName(Float) == "float" && TypeName(Double) == "double" && TypeName(String) == "string"
    ensures TypeName(Date) == "date" && TypeName(Timestamp) == "timestamp"
    ensures forall t :: TypeName(List(t)) == "list<" + TypeName(t) + ">"
    ensures forall name :: TypeName(UserDefined(name)) == name
    ensures TypeNameToDataType(s).Success? ==>
      Nameable(TypeNameToDataType(s).value) && TypeName(TypeNameToDataType(s).value) == s
    ensures TypeNameToDataType(s).Failure? ==>
      TypeNameToDataType(s).error == Thrown && forall t :: Nameable(t) ==> TypeName(t) != s
  {
    if TypeNameToDataType(s).Failure? {
      forall t | Nameable(t) ensures TypeName(t) != s {
        TypeNameReadsBack(t);
      }
    } else {
      NamedIs(TypeNameToDataType(s).value, s);
    }
  }

  lemma NamedIs(t: DataType, s: string)
    requires TypeNameToDataType(s) == Success(t)
    ensures Nameable(t) && TypeName(t) == s
  {
    if t.List? {
      assert "list<" + TypeName(t.child) + ">" == s;
    }
  }

  // ----- file types -----

  datatype FileType = Csv | Parquet | Orc | Json

  function FileTypeToString(t: FileType): string {
    match t
    case Csv => "csv"
    case Parquet => "parquet"
    case Orc => "orc"
    case Json => "json"
  }

  function StringToFileType(s: string): Result<FileType> {
    if s == "csv" then Success(Csv)
    else if s == "json" then Success(Json)
    else if s == "parquet" then Success(Parquet)
    else if s == "orc" then Success(Orc)
    else Failure(Thrown)
  }

  lemma FileTypeNamesKnown(s: string)
    ensures FileTypeToString(Csv) == "csv" && FileTypeToString(Parquet) == "parquet"
    ensures FileTypeToString(Orc) == "orc" && FileTypeToString(Json) == "json"
    ensures StringToFileType(s).Success? ==> FileTypeToString(StringToFileType(s).value) == s
    ensures StringToFileType(s).Failure? ==>
      StringToFileType(s).error == Thrown && forall t :: FileTypeToString(t) != s
  {
  }

  // ----- adjacency list types -----

  datatype AdjListType = UnorderedBySource | UnorderedByDest | OrderedBySource | OrderedByDest {
    predicate Ordered() {
      OrderedBySource? || OrderedByDest?
    }

    predicate BySource() {
      OrderedBySource? || UnorderedBySource?
    }
  }

  function AdjListTypeToString(t: AdjListType): string {
    match t
    case UnorderedBySource => "unordered_by_source"
    case UnorderedByDest => "unordered_by_dest"
    case OrderedBySource => "ordered_by_source"
    case OrderedByDest => "ordered_by_dest"
  }

  function OrderedAlignedToAdjListType(ordered: bool, aligned: string): AdjListType {
    if ordered then
      if aligned == "src" then OrderedBySource else OrderedByDest
    else
      if aligned == "src" then UnorderedBySource else UnorderedByDest
  }

  function AdjListTypeToOrderedAligned(t: AdjListType): (bool, string) {
    (t.Ordered(), if t.BySource() then "src" else "dst")
  }

  /** The two entries of a list type in a file decide it: any alignment but "src" is by destination. */
  lemma AlignedKnown(ordered: bool, aligned: string)
    ensures var t := OrderedAlignedToAdjListType(ordered, aligned);
            (t.Ordered() <==> ordered) && (t.BySource() <==> aligned == "src")
    ensures AdjListTypeToOrderedAligned(OrderedBySource) == (true, "src")
    ensures AdjListTypeToOrderedAligned(OrderedByDest) == (true, "dst")
    ensures AdjListTypeToOrderedAligned(UnorderedBySource) == (false, "src")
    ensures AdjListTypeToOrderedAligned(UnorderedByDest) == (false, "dst")
    ensures AdjListTypeToString(UnorderedBySource) == "unordered_by_source"
    ensures AdjListTypeToString(UnorderedByDest) == "unordered_by_dest"
    ensures AdjListTypeToString(OrderedBySource) == "ordered_by_source"
    ensures AdjListTypeToString(OrderedByDest) == "ordered_by_dest"
  {
  }
}
