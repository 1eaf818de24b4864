/**
 * The post receipt of the delivery service,
 * "sourceCityName,destinationCityName,weightInGrams,typeOfCourierWanted":
 * its four fields as std::getline reads them from a string stream, the
 * weight as std::stoi converts it, and the order in which a receipt is
 * checked.
 */
module DeliveryReceipt {
  import opened DeliveryGraph
  import opened DeliveryHandler

  /** A string stream: what is left to read, and whether the end of the input has been hit. */
  datatype Stream = Stream(rest: string, eof: bool)

  /** The text up to the first comma, or all of it when it has none. */
  function UpTo(s: string): (f: string)
    ensures f <= s && ',' !in f
    ensures |f| == |s| || s[|f|] == ','
  {
    if s == [] || s[0] == ',' then [] else [s[0]] + UpTo(s[1..])
  }

  /**
   * std::getline with ',' as the delimiter: it fails on a stream already at
   * its end and when it extracts nothing at all; otherwise it reads the
   * field and consumes the comma after it, or hits the end of the input.
   */
  function GetLine(st: Stream): (r: Option<(string, Stream)>)
    ensures r.None? <==> st.eof || st.rest == []
    ensures r.Some? ==> ',' !in r.value.0
    ensures r.Some? && r.value.1.eof ==> r.value.0 == st.rest && r.value.1.rest == []
    ensures r.Some? && !r.value.1.eof ==> st.rest == r.value.0 + ([','] + r.value.1.rest)
  {
    if st.eof || st.rest == [] then None
    else
      var f := UpTo(st.rest);
      if |f| == |st.rest| then
        assert f == st.rest;
        Some((f, Stream([], true)))
      else
        assert st.rest == f + ([','] + st.rest[|f| + 1..]);
        Some((f, Stream(st.rest[|f| + 1..], false)))
  }

  /** The four fields of a receipt. */
  datatype Fields = Fields(source: string, destination: string, weight: string, courierType: string)

  /** A receipt made of the fields, with the commas between them, followed by tail. */
  function Written(f: Fields, tail: string): string
  {
    f.source + ([','] + (f.destination + ([','] + (f.weight + ([','] + (f.courierType + tail))))))
  }

  /** Fields a receipt can carry: no field holds a comma. */
  predicate Readable(f: Fields)
  {
    ',' !in f.source && ',' !in f.destination && ',' !in f.weight && ',' !in f.courierType
  }

  /**
   * What may follow the fourth field: nothing, provided that field is not
   * empty, or a comma and anything at all.
   */
  predicate Ending(f: Fields, tail: string)
  {
    (tail == [] && f.courierType != []) || (tail != [] && tail[0] == ',')
  }

  /**
   * The four getline calls of sendPackage on the receipt: the fields, or
   * None when one of them fails. Whatever follows the fourth field is not
   * read.
   */
  function ParseReceipt(receipt: string): Option<Fields>
  {
    match GetLine(Stream(receipt, false))
    case None => None
    case Some((source, st1)) =>
      match GetLine(st1)
      case None => None
      case Some((destination, st2)) =>
        match GetLine(st2)
        case None => None
        case Some((weight, st3)) =>
          match GetLine(st3)
          case None => None
          case Some((courierType, _)) => Some(Fields(source, destination, weight, courierType))
  }

  /**
   * The fields read from a receipt can be carried by a receipt, and the
   * receipt is made of them followed by an ending, the text not read.
   */
  lemma {:induction false} ParseSound(receipt: string) returns (tail: string)
    requires ParseReceipt(receipt).Some?
    ensures Readable(ParseReceipt(receipt).value)
    ensures receipt == Written(ParseReceipt(receipt).value, tail) && Ending(ParseReceipt(receipt).value, tail)
  {
    var r1 := GetLine(Stream(receipt, false)).value;
    var r2 := GetLine(r1.1).value;
    var r3 := GetLine(r2.1).value;
    var r4 := GetLine(r3.1).value;
    assert ParseReceipt(receipt).value == Fields(r1.0, r2.0, r3.0, r4.0);
    tail := LastField(r3.1);
  }

  /** The last getline of a receipt: its field and what follows it. */
  lemma {:induction false} LastField(st: Stream) returns (tail: string)
    requires GetLine(st).Some?
    ensures st.rest == GetLine(st).value.0 + tail
    ensures (tail == [] && GetLine(st).value.0 != []) || (tail != [] && tail[0] == ',')
  {
    var f := GetLine(st).value.0;
    if GetLine(st).value.1.eof {
      tail := [];
      assert st.rest == f + tail;
    } else {
      tail := [','] + GetLine(st).value.1.rest;
    }
  }

  /** A comma-free field followed by a comma is read by getline, which leaves what follows the comma. */
  lemma {:induction false} GetLineField(field: string, rest: string)
    requires ',' !in field
    ensures GetLine(Stream(field + ([','] + rest), false)) == Some((field, Stream(rest, false)))
  {
    var s := field + ([','] + rest);
    UpToField(field, rest);
    assert s[|field| + 1..] == rest;
  }

  /** The last field, followed by an ending, is read by getline. */
  lemma {:induction false} GetLineLast(f: Fields, tail: string)
    requires ',' !in f.courierType && Ending(f, tail)
    ensures GetLine(Stream(f.courierType + tail, false)).Some?
    ensures GetLine(Stream(f.courierType + tail, false)).value.0 == f.courierType
  {
    UpToEnd(f.courierType, tail);
  }

  /** Conversely, a receipt made of four readable fields and an ending is read as exactly those fields. */
  lemma {:induction false} ParseJoin(f: Fields, tail: string)
    requires Readable(f) && Ending(f, tail)
    ensures ParseReceipt(Written(f, tail)) == Some(f)
  {
    var rest3 := f.courierType + tail;
    var rest2 := f.weight + ([','] + rest3);
    var rest1 := f.destination + ([','] + rest2);
    GetLineField(f.source, rest1);
    GetLineField(f.destination, rest2);
    GetLineField(f.weight, rest3);
    GetLineLast(f, tail);
  }

  /** A field followed by a comma is read up to that comma. */
  lemma {:induction false} UpToField(field: string, rest: string)
    requires ',' !in field
    ensures UpTo(field + ([','] + rest)) == field
  {
    if field != [] {
      assert (field + ([','] + rest))[1..] == field[1..] + ([','] + rest);
      UpToField(field[1..], rest);
    } else {
      assert field + ([','] + rest) == [','] + rest;
    }
  }

  /** The last field, followed by nothing or by a comma, is read up to there. */
  lemma {:induction false} UpToEnd(field: string, tail: string)
    requires ',' !in field && (tail == [] || tail[0] == ',')
    ensures UpTo(field + tail) == field
  {
    if field != [] {
      assert (field + tail)[1..] == field[1..] + tail;
      UpToEnd(field[1..], tail);
    } else {
      assert field + tail == tail;
    }
  }

  /** A receipt that is read holds at least three commas. */
  lemma {:induction false} ReadCommas(receipt: string)
    requires ParseReceipt(receipt).Some?
    ensures multiset(receipt)[','] >= 3
  {
    var tail := ParseSound(receipt);
  }

  // -------------------------------------------------------------------------
  // std::stoi

  /** The characters isspace accepts in the "C" locale. */
  predicate IsSpace(c: char)
  {
    c == ' ' || c == '\t' || c == '\n' || c == '\U{000B}' || c == '\U{000C}' || c == '\r'
  }

  predicate IsDigit(c: char)
  {
    '0' <= c <= '9'
  }

  /** What is left after the leading white space. */
  function SkipSpace(s: string): (t: string)
    ensures |t| <= |s| && t == s[|s| - |t|..]
    ensures t == [] || !IsSpace(t[0])
  {
    if s != [] && IsSpace(s[0]) then SkipSpace(s[1..]) else s
  }

  /** The leading decimal digits. */
  function Digits(s: string): (d: string)
    ensures forall i :: 0 <= i < |d| ==> IsDigit(d[i])
  {
    if s != [] && IsDigit(s[0]) then [s[0]] + Digits(s[1..]) else []
  }

  /** The number that decimal digits write. */
  function Value(d: string): (n: nat)
    requires forall i :: 0 <= i < |d| ==> IsDigit(d[i])
  {
    if d == [] then 0
    else
      assert IsDigit(d[|d| - 1]);
      Value(d[..|d| - 1]) * 10 + (d[|d| - 1] as int - '0' as int)
  }

  const INT_MIN := -0x8000_0000

  /** The outcomes of std::stoi: a number, std::invalid_argument or std::out_of_range. */
  datatype Conversion = Converted(n: int) | NoConversion | OutOfRange

  /** The optional sign after the white space: whether it is a minus, and what follows it. */
  function Signed(t: string): (r: (bool, string))
    ensures r.1 == (if t != [] && (t[0] == '+' || t[0] == '-') then t[1..] else t)
    ensures r.0 <==> t != [] && t[0] == '-'
  {
    if t != [] && (t[0] == '+' || t[0] == '-') then (t[0] == '-', t[1..]) else (false, t)
  }

  /**
   * std::stoi in base 10: white space, an optional sign and the longest run
   * of digits after it; no digit there is std::invalid_argument, a number
   * outside the 32-bit int is std::out_of_range, and the rest of the text
   * is ignored.
   */
  function Stoi(s: string): (r: Conversion)
    ensures r == NoConversion <==> Digits(Signed(SkipSpace(s)).1) == []
    ensures r.Converted? ==> INT_MIN <= r.n <= INT_MAX
  {
    var signed := Signed(SkipSpace(s));
    var d := Digits(signed.1);
    if d == [] then NoConversion
    else
      var n: int := if signed.0 then -(Value(d) as int) else Value(d);
      if INT_MIN <= n <= INT_MAX then Converted(n) else OutOfRange
  }

  /** The number std::stoi reads from the digits after the sign. */
  lemma {:induction false} StoiDigits(s: string, negative: bool, u: string, d: string)
    requires Signed(SkipSpace(s)) == (negative, u) && Digits(u) == d && d != []
    ensures var n: int := if negative then -(Value(d) as int) else Value(d);
      Stoi(s) == if INT_MIN <= n <= INT_MAX then Converted(n) else OutOfRange
  {
  }

  /** The decimal digits of a natural number, without leading zeros. */
  function Decimal(n: nat): (d: string)
    ensures d != [] && forall i :: 0 <= i < |d| ==> IsDigit(d[i])
  {
    if n < 10 then ['0' + n as char] else Decimal(n / 10) + ['0' + (n % 10) as char]
  }

  /** How a number is written, with a minus when it is negative. */
  function Show(n: int): string
  {
    if n < 0 then ['-'] + Decimal(-n) else Decimal(n)
  }

  /** The digits of a number are read back as that number. */
  lemma {:induction false} ValueDecimal(n: nat)
    ensures Value(Decimal(n)) == n
  {
    var d := Decimal(n);
    if n >= 10 {
      ValueDecimal(n / 10);
      assert d[..|d| - 1] == Decimal(n / 10);
    }
  }

  /** A run of digits followed by what is not a digit is read as that run. */
  lemma {:induction false} DigitsPrefix(d: string, tail: string)
    requires forall i :: 0 <= i < |d| ==> IsDigit(d[i])
    requires tail == [] || !IsDigit(tail[0])
    ensures Digits(d + tail) == d
  {
    if d != [] {
      assert (d + tail)[1..] == d[1..] + tail;
      DigitsPrefix(d[1..], tail);
    } else {
      assert d + tail == tail;
    }
  }

  /** Digits at the start: no white space is skipped and no sign is read. */
  lemma {:induction false} Unsigned(u: string)
    requires u != [] && IsDigit(u[0])
    ensures Signed(SkipSpace(u)) == (false, u)
  {
    assert SkipSpace(u) == u;
  }

  /** A minus and then digits: no white space is skipped and the sign is read. */
  lemma {:induction false} Negative(u: string)
    requires u != [] && IsDigit(u[0])
    ensures Signed(SkipSpace(['-'] + u)) == (true, u)
  {
    assert SkipSpace(['-'] + u) == ['-'] + u;
    assert (['-'] + u)[1..] == u;
  }

  /** std::stoi reads back every 32-bit int as written, whatever follows that is not a digit. */
  lemma {:induction false} StoiShow(n: int, tail: string)
    requires INT_MIN <= n <= INT_MAX
    requires tail == [] || !IsDigit(tail[0])
    ensures Stoi(Show(n) + tail) == Converted(n)
  {
    var m: nat := if n < 0 then -n else n;
    var d := Decimal(m);
    ValueDecimal(m);
    StoiRun(d, tail, n < 0);
    if n < 0 {
      assert Show(n) + tail == ['-'] + (d + tail);
    }
  }

  /** A run of digits, after a minus or not, and then what is not a digit is read as the number they write. */
  lemma {:induction false} StoiRun(d: string, tail: string, negative: bool)
    requires d != [] && forall i :: 0 <= i < |d| ==> IsDigit(d[i])
    requires tail == [] || !IsDigit(tail[0])
    ensures var n: int := if negative then -(Value(d) as int) else Value(d);
      Stoi(if negative then ['-'] + (d + tail) else d + tail)
        == if INT_MIN <= n <= INT_MAX then Converted(n) else OutOfRange
  {
    var u := d + tail;
    DigitsPrefix(d, tail);
    assert u[0] == d[0];
    if negative {
      Negative(u);
      StoiDigits(['-'] + u, true, u, d);
    } else {
      Unsigned(u);
      StoiDigits(u, false, u, d);
    }
  }

  /** "1.5" weighs 1 gram: the fraction is dropped. */
  lemma StoiFraction()
    ensures Stoi("1.5") == Converted(1)
  {
    assert "1.5" == Show(1) + ".5";
    StoiShow(1, ".5");
  }

  /** A text whose first character is neither white space, a sign nor a digit is not a number. */
  lemma StoiLetter(s: string)
    requires s != [] && !IsSpace(s[0]) && !IsDigit(s[0]) && s[0] != '+' && s[0] != '-'
    ensures Stoi(s) == NoConversion
  {
  }

  // -------------------------------------------------------------------------
  // The checks of sendPackage

  /** The ways sendPackage rejects a receipt; std::out_of_range escapes it uncaught. */
  datatype ReceiptError = NotInFormat | InvalidCity | WeightNotInteger | WeightOutOfRange | InvalidCourierType

  /** A receipt that passed every check. */
  datatype Order = Order(source: string, destination: string, weight: int, courierType: CourierType)

  /** The name of a courier type on a receipt. */
  function TypeName(t: CourierType): string
  {
    match t
    case BASIC => "basic"
    case FIRST_CLASS => "firstClass"
  }

  /** The courier type a receipt names, if it names one exactly. */
  function ParseType(name: string): (r: Option<CourierType>)
    ensures r.Some? ==> TypeName(r.value) == name
    ensures r.None? ==> name != TypeName(BASIC) && name != TypeName(FIRST_CLASS)
  {
    if name == "basic" then Some(BASIC)
    else if name == "firstClass" then Some(FIRST_CLASS)
    else None
  }

  /**
   * The checks of sendPackage in their order: the four fields, then both
   * cities among the cities of the map, then the weight, then the courier
   * type.
   */
  function Validate(receipt: string, cities: set<string>): (r: Result<Order, ReceiptError>)
    ensures r == Failure(NotInFormat) <==> ParseReceipt(receipt).None?
    ensures r == Failure(InvalidCity) <==>
      ParseReceipt(receipt).Some?
      && (ParseReceipt(receipt).value.source !in cities || ParseReceipt(receipt).value.destination !in cities)
    ensures r.Success? ==>
      var f := ParseReceipt(receipt).value;
      r.value.source == f.source && r.value.destination == f.destination && f.source in cities
      && f.destination in cities && Stoi(f.weight) == Converted(r.value.weight)
      && TypeName(r.value.courierType) == f.courierType
  {
    match ParseReceipt(receipt)
    case None => Failure(NotInFormat)
    case Some(f) =>
      if f.source !in cities || f.destination !in cities then Failure(InvalidCity)
      else
        match Stoi(f.weight)
        case NoConversion => Failure(WeightNotInteger)
        case OutOfRange => Failure(WeightOutOfRange)
        case Converted(weight) =>
          match ParseType(f.courierType)
          case None => Failure(InvalidCourierType)
          case Some(t) => Success(Order(f.source, f.destination, weight, t))
  }

  /** The weight is checked only for receipts that name two cities, and the type only for a weight that converts. */
  lemma ValidateOrder(receipt: string, cities: set<string>)
    requires ParseReceipt(receipt).Some?
    ensures var f := ParseReceipt(receipt).value;
      f.source in cities && f.destination in cities ==>
        (Validate(receipt, cities) == Failure(WeightNotInteger) <==> Stoi(f.weight) == NoConversion)
        && (Validate(receipt, cities) == Failure(WeightOutOfRange) <==> Stoi(f.weight) == OutOfRange)
        && (Validate(receipt, cities) == Failure(InvalidCourierType) <==>
              Stoi(f.weight).Converted? && ParseType(f.courierType).None?)
  {
  }

  /**
   * Every order whose cities are cities of the map and hold no comma is
   * accepted when it is written out as a receipt, with the weight in
   * decimal and anything after a further comma.
   */
  lemma {:induction false} ValidateShow(order: Order, cities: set<string>, tail: string)
    requires order.source in cities && order.destination in cities
    requires ',' !in order.source && ',' !in order.destination
    requires INT_MIN <= order.weight <= INT_MAX
    requires tail != [] ==> tail[0] == ','
    ensures Validate(Written(Fields(order.source, order.destination, Show(order.weight), TypeName(order.courierType)),
                             tail), cities) == Success(order)
  {
    ShowNoComma(order.weight);
    StoiShow(order.weight, []);
    assert Show(order.weight) + [] == Show(order.weight);
    ValidateWritten(order, cities, Show(order.weight), tail);
  }

  /** A receipt whose weight field converts to the weight of an order is accepted as that order. */
  lemma {:induction false} ValidateWritten(order: Order, cities: set<string>, weight: string, tail: string)
    requires order.source in cities && order.destination in cities
    requires ',' !in order.source && ',' !in order.destination && ',' !in weight
    requires Stoi(weight) == Converted(order.weight)
    requires tail != [] ==> tail[0] == ','
    ensures Validate(Written(Fields(order.source, order.destination, weight, TypeName(order.courierType)), tail),
                     cities) == Success(order)
  {
    var f := Fields(order.source, order.destination, weight, TypeName(order.courierType));
    ParseJoin(f, tail);
    ValidateParsed(Written(f, tail), cities, f, order);
  }

  /** A receipt read as fields that pass every check is accepted as the order they describe. */
  lemma {:induction false} ValidateParsed(receipt: string, cities: set<string>, f: Fields, order: Order)
    requires ParseReceipt(receipt) == Some(f)
    requires f == Fields(order.source, order.destination, f.weight, TypeName(order.courierType))
    requires order.source in cities && order.destination in cities && Stoi(f.weight) == Converted(order.weight)
    ensures Validate(receipt, cities) == Success(order)
  {
    ParseTypeName(order.courierType);
  }

  /** The name of each courier type is read back as that type. */
  lemma ParseTypeName(t: CourierType)
    ensures ParseType(TypeName(t)) == Some(t)
  {
    assert |TypeName(BASIC)| == 5 && |TypeName(FIRST_CLASS)| == 10;
  }

  /** A written number holds no comma. */
  lemma {:induction false} ShowNoComma(n: int)
    ensures ',' !in Show(n)
  {
    var m: nat := if n < 0 then -n else n;
    var d := Decimal(m);
    assert ',' !in d by {
      forall i | 0 <= i < |d|
        ensures d[i] != ','
      {
        assert IsDigit(d[i]);
      }
    }
  }
}
