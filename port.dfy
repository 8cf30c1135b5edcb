/** The Port value type: a TCP/UDP port number 0..65535 held by an object whose
    setter validates, with its JSON form `{ _type: "Port", value: "<digits>" }`
    and its database column form (a plain number, where a falsy column reads
    back as no port). */
module Port {
  import opened Wrappers
  import opened JsBuiltins

  /** A JavaScript number as the port code can observe it: NaN or an integer. */
  datatype JsNumber = NaN | Num(n: int)

  const MaxPort: int := 65535

  /** ObjectType.Port, the tag of a port's JSON form. */
  const PortTag: string := "Port"

  const InvalidPortMessage: string := "Port is not in valid format."

  datatype PortError =
    | BadData(message: string)   // BadDataException("Port is not in valid format.")
    | InvalidJson                // BadDataException("Invalid JSON: " + JSON.stringify(json))

  // ---------------------------------------------------------------------------
  // Decimal text

  predicate IsDigit(c: char) {
    '0' <= c <= '9'
  }

  predicate AllDigits(s: string) {
    forall k :: 0 <= k < |s| ==> IsDigit(s[k])
  }

  function DigitValue(c: char): nat
    requires IsDigit(c)
  {
    (c as int) - ('0' as int)
  }

  function DigitChar(d: nat): (c: char)
    requires d < 10
    ensures IsDigit(c) && DigitValue(c) == d
  {
    (('0' as int) + d) as char
  }

  /** The longest run of decimal digits at the start of `s`. */
  function DigitPrefix(s: string): (r: string)
    ensures |r| <= |s| && r == s[..|r|] && AllDigits(r)
    ensures |r| < |s| ==> !IsDigit(s[|r|])
  {
    if |s| > 0 && IsDigit(s[0]) then [s[0]] + DigitPrefix(s[1..]) else ""
  }

  /** The value of a string of decimal digits, most significant first. */
  function DecimalValue(d: string): nat
    requires AllDigits(d)
  {
    if |d| == 0 then 0 else DecimalValue(d[..|d| - 1]) * 10 + DigitValue(d[|d| - 1])
  }

  /** Number.prototype.toString() of a non-negative integer. */
  function NatToDecimal(n: nat): (r: string)
    ensures |r| > 0 && AllDigits(r)
  {
    if n < 10 then [DigitChar(n)] else NatToDecimal(n / 10) + [DigitChar(n % 10)]
  }

  /** Number.parseInt(s, 10): skip leading whitespace, take an optional sign,
      then the longest digit prefix; NaN when there is no digit. */
  function ParseInt10(s: string): JsNumber
  {
    var t := TrimStart(s);
    var negative := |t| > 0 && t[0] == '-';
    var body := if |t| > 0 && (t[0] == '-' || t[0] == '+') then t[1..] else t;
    var digits := DigitPrefix(body);
    if |digits| == 0 then NaN
    else Num(if negative then -(DecimalValue(digits) as int) else DecimalValue(digits))
  }

  lemma {:induction false} DecimalValueOfDecimal(n: nat)
    ensures DecimalValue(NatToDecimal(n)) == n
  {
    if n >= 10 {
      DecimalValueOfDecimal(n / 10);
      var d := NatToDecimal(n);
      assert d[..|d| - 1] == NatToDecimal(n / 10);
    }
  }

  lemma {:induction false} DigitPrefixOfDigits(s: string)
    requires AllDigits(s)
    ensures DigitPrefix(s) == s
  {
    if |s| > 0 {
      DigitPrefixOfDigits(s[1..]);
    }
  }

  /** parseInt reads back exactly the number toString wrote. */
  lemma ParseIntOfDecimal(n: nat)
    ensures ParseInt10(NatToDecimal(n)) == Num(n)
  {
    var d := NatToDecimal(n);
    DigitIsNotWhitespace(d[0]);
    assert TrimStart(d) == d;
    DigitPrefixOfDigits(d);
    DecimalValueOfDecimal(n);
  }

  // ---------------------------------------------------------------------------
  // Validation

  /** What Port.isValid and the Port constructor accept: a number, a string,
      or a PositiveNumber (modelled as the number it wraps). */
  datatype PortInput =
    | NumberArg(num: JsNumber)
    | StringArg(str: string)
    | PositiveNumberArg(wrapped: JsNumber)

  /** The number a port input stands for; strings are trimmed and parsed as a
      base-10 integer prefix. */
  function NumberOf(input: PortInput): JsNumber
  {
    match input
    case NumberArg(v) => v
    case StringArg(s) => ParseInt10(Trim(s))
    case PositiveNumberArg(v) => v
  }

  /** Port.isValid: the input denotes a number in 0..65535 (NaN compares false). */
  predicate IsValid(input: PortInput)
  {
    match NumberOf(input)
    case NaN => false
    case Num(n) => 0 <= n <= MaxPort
  }

  lemma DigitIsNotWhitespace(c: char)
    requires IsDigit(c)
    ensures !IsJsWhitespace(c)
  {
  }

  lemma TrimOfDecimal(n: nat)
    ensures Trim(NatToDecimal(n)) == NatToDecimal(n)
  {
    var d := NatToDecimal(n);
    DigitIsNotWhitespace(d[0]);
    assert TrimStart(d) == d;
    DigitIsNotWhitespace(d[|d| - 1]);
    assert TrimEnd(d) == d;
  }

  /** The decimal text of every port number is a valid port string. */
  lemma DecimalStringIsValid(n: nat)
    requires n <= MaxPort
    ensures IsValid(StringArg(NatToDecimal(n))) && NumberOf(StringArg(NatToDecimal(n))) == Num(n)
  {
    TrimOfDecimal(n);
    ParseIntOfDecimal(n);
  }

  /** A string without any decimal digit parses to NaN and is not a valid port. */
  lemma NonNumericStringIsInvalid(s: string)
    requires forall k :: 0 <= k < |s| ==> !IsDigit(s[k])
    ensures NumberOf(StringArg(s)) == NaN && !IsValid(StringArg(s))
  {
    var t := TrimStart(Trim(s));
    var body := if |t| > 0 && (t[0] == '-' || t[0] == '+') then t[1..] else t;
    if |body| > 0 {
      // body is a suffix of t, t of Trim(s), and Trim(s) a slice of s
      var trimmedStart := TrimStart(s);
      assert Trim(s) == trimmedStart[..|Trim(s)|];
      assert !IsDigit(s[|s| - |trimmedStart| + |Trim(s)| - |t| + (|t| - |body|)]);
      assert body[0] == s[|s| - |trimmedStart| + |Trim(s)| - |t| + (|t| - |body|)];
    }
    assert DigitPrefix(body) == "";
  }

  // ---------------------------------------------------------------------------
  // The Port object

  class Port {
    /** `_port`; the PositiveNumber wrapper is modelled as its number. */
    var port: int

    ghost predicate Valid()
      reads this
    {
      0 <= port <= MaxPort
    }

    /** The field initialiser `_port = new PositiveNumber(0)`. */
    constructor Init()
      ensures port == 0 && Valid()
    {
      port := 0;
    }

    /** The `port` setter: stores the value only when Port.isValid accepts it,
        otherwise throws BadDataException and leaves `_port` as it was. */
    method SetPort(value: JsNumber) returns (r: Result<(), PortError>)
      modifies this
      ensures r.Ok? <==> IsValid(PositiveNumberArg(value))
      ensures r.Ok? ==> port == value.n
      ensures r.Err? ==> port == old(port) && r.error == BadData(InvalidPortMessage)
      ensures old(Valid()) ==> Valid()
    {
      if IsValid(PositiveNumberArg(value)) {
        port := value.n;
        r := Ok(());
      } else {
        r := Err(BadData(InvalidPortMessage));
      }
    }

    /** Port.toNumber: the number held, a port number whenever the object
        is valid. */
    function ToNumber(): (r: int)
      reads this
      ensures Valid() ==> 0 <= r <= MaxPort
    {
      port
    }

    /** Port.toString: the decimal text of the port, which parseInt reads
        back as the port. */
    function ToString(): (r: string)
      reads this
      requires Valid()
      ensures |r| > 0 && AllDigits(r)
      ensures ParseInt10(r) == Num(port)
    {
      ParseIntOfDecimal(port);
      NatToDecimal(port)
    }

    /** `{ _type: ObjectType.Port, value: this.toString() }`: tagged as a port,
        with a non-empty (so truthy) decimal text of the port as its value. */
    function ToJSON(): (r: PortJson)
      reads this
      requires Valid()
      ensures r.typeTag == JStr(PortTag)
      ensures r.value.JStr? && Truthy(r.value) && AllDigits(r.value.s)
      ensures ParseInt10(r.value.s) == Num(port)
    {
      PortJson(JStr(PortTag), JStr(ToString()))
    }
  }

  /** Wrapping the input's number in a PositiveNumber, as the constructor
      does, neither loses nor gains validity. */
  lemma ValidThroughPositiveNumber(input: PortInput)
    ensures IsValid(PositiveNumberArg(NumberOf(input))) <==> IsValid(input)
  {
  }

  /** `new Port(input)`: initialise `_port` to 0, then go through the setter
      with `new PositiveNumber(input)`. */
  method NewPort(input: PortInput) returns (r: Result<Port, PortError>)
    ensures r.Ok? <==> IsValid(input)
    ensures r.Ok? ==> fresh(r.value) && r.value.Valid() && r.value.port == NumberOf(input).n
    ensures r.Err? ==> r.error == BadData(InvalidPortMessage)
  {
    var p := new Port.Init();
    var value := NumberOf(input);
    ValidThroughPositiveNumber(input);
    var stored := p.SetPort(value);
    if stored.Ok? {
      r := Ok(p);
    } else {
      r := Err(stored.error);
    }
  }

  /** The outcome of `new Port(input)`, as the port number it would hold. */
  function PortNumberOf(input: PortInput): (r: Result<int, PortError>)
    ensures r.Ok? ==> 0 <= r.value <= MaxPort
  {
    if IsValid(input) then Ok(NumberOf(input).n) else Err(BadData(InvalidPortMessage))
  }

  // ---------------------------------------------------------------------------
  // JSON form

  /** The JSON values a port's `_type` and `value` members can hold. */
  datatype JsonValue = JStr(s: string) | JNum(num: JsNumber) | JNull | JUndefined

  datatype PortJson = PortJson(typeTag: JsonValue, value: JsonValue)

  predicate Truthy(v: JsonValue) {
    match v
    case JStr(s) => s != ""
    case JNum(num) => num.Num? && num.n != 0
    case JNull => false
    case JUndefined => false
  }

  /** Port.fromJSON's argument to the constructor: `(json.value as string) || ""`. */
  function JsonPortInput(json: PortJson): (r: Result<PortInput, PortError>)
    ensures r.Ok? <==> json.typeTag == JStr(PortTag)
    ensures r.Ok? && !Truthy(json.value) ==> r.value == StringArg("")
  {
    if json.typeTag != JStr(PortTag) then Err(InvalidJson)
    else if !Truthy(json.value) then Ok(StringArg(""))
    else match json.value
      case JStr(s) => Ok(StringArg(s))
      case JNum(num) => Ok(NumberArg(num))
  }

  /** The outcome of Port.fromJSON, as the port number of the new object. */
  function FromJsonNumber(json: PortJson): (r: Result<int, PortError>)
    ensures json.typeTag != JStr(PortTag) ==> r == Err(InvalidJson)
    ensures r.Ok? ==> 0 <= r.value <= MaxPort
  {
    match JsonPortInput(json)
    case Err(e) => Err(e)
    case Ok(input) => PortNumberOf(input)
  }

  /** Port.fromJSON. */
  method FromJSON(json: PortJson) returns (r: Result<Port, PortError>)
    ensures r.Ok? <==> FromJsonNumber(json).Ok?
    ensures r.Ok? ==> fresh(r.value) && r.value.Valid() && r.value.port == FromJsonNumber(json).value
    ensures r.Err? ==> r.error == FromJsonNumber(json).error
  {
    var input := JsonPortInput(json);
    if input.Err? {
      r := Err(input.error);
    } else {
      r := NewPort(input.value);
    }
  }

  /** fromJSON(toJSON(p)) holds the same port number as p. */
  lemma JsonRoundTrip(p: Port)
    requires p.Valid()
    ensures FromJsonNumber(p.ToJSON()) == Ok(p.port)
  {
    DecimalStringIsValid(p.port);
  }

  /** A numeric `value` of 0 is falsy, so fromJSON turns it into "" and fails. */
  lemma JsonZeroNumberRejected()
    ensures FromJsonNumber(PortJson(JStr(PortTag), JNum(Num(0)))) == Err(BadData(InvalidPortMessage))
  {
    assert NumberOf(StringArg("")) == NaN;
  }

  // ---------------------------------------------------------------------------
  // Database column form

  /** What Port.toDatabase is handed: a Port, a string, or a query operator. */
  datatype DbArg = DbPort(p: Port) | DbString(s: string) | DbFindOperator

  /** Port.toDatabase: a Port becomes its number, a string is first turned into
      a Port (and may throw), anything else becomes null. */
  method ToDatabase(value: DbArg) returns (r: Result<Option<int>, PortError>)
    ensures value.DbPort? ==> r == Ok(Some(value.p.port))
    ensures value.DbString? ==>
      r == (match PortNumberOf(StringArg(value.s))
            case Ok(n) => Ok(Some(n))
            case Err(e) => Err(e))
    ensures value.DbFindOperator? ==> r == Ok(None)
  {
    match value {
      case DbPort(p) =>
        r := Ok(Some(p.port));
      case DbString(s) =>
        var made := NewPort(StringArg(s));
        if made.Ok? {
          r := Ok(Some(made.value.port));
        } else {
          r := Err(made.error);
        }
      case DbFindOperator =>
        r := Ok(None);
    }
  }

  /** A value read back from the port column. */
  datatype DbColumn = ColumnNumber(num: JsNumber) | ColumnString(s: string)

  predicate ColumnTruthy(v: DbColumn) {
    match v
    case ColumnNumber(num) => num.Num? && num.n != 0
    case ColumnString(s) => s != ""
  }

  function ColumnInput(v: DbColumn): PortInput {
    match v
    case ColumnNumber(num) => NumberArg(num)
    case ColumnString(s) => StringArg(s)
  }

  /** The outcome of Port.fromDatabase, as the port number of the new object. */
  function FromDatabaseNumber(v: DbColumn): (r: Result<Option<int>, PortError>)
    ensures !ColumnTruthy(v) ==> r == Ok(None)
    ensures r.Ok? && r.value.Some? ==> 0 < r.value.value <= MaxPort || v.ColumnString?
  {
    if !ColumnTruthy(v) then Ok(None)
    else match PortNumberOf(ColumnInput(v))
      case Ok(n) => Ok(Some(n))
      case Err(e) => Err(e)
  }

  /** Port.fromDatabase: a falsy column (0, "", NaN) gives null, anything else
      goes through the constructor. */
  method FromDatabase(v: DbColumn) returns (r: Result<Option<Port>, PortError>)
    ensures r.Ok? <==> FromDatabaseNumber(v).Ok?
    ensures r.Ok? ==> (r.value.None? <==> FromDatabaseNumber(v).value.None?)
    ensures r.Ok? && r.value.Some? ==>
      fresh(r.value.value) && r.value.value.Valid() && r.value.value.port == FromDatabaseNumber(v).value.value
  {
    if ColumnTruthy(v) {
      var made := NewPort(ColumnInput(v));
      if made.Ok? {
        r := Ok(Some(made.value));
      } else {
        r := Err(made.error);
      }
    } else {
      r := Ok(None);
    }
  }

  /** toDatabase then fromDatabase: every non-zero port survives, port 0 is
      read back as no port at all. */
  lemma DatabaseRoundTrip(p: Port)
    requires p.Valid()
    ensures FromDatabaseNumber(ColumnNumber(Num(p.port))) ==
      if p.port == 0 then Ok(None) else Ok(Some(p.port))
  {
  }
}
