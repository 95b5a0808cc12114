/** What support-runtime/src/parameter.rs serializes, and the parts every style is made of. */
module Parameters {
  import opened Sequences
  import opened Percent

  /** The text of a number: digits, signs inside exponents and points, never a delimiter. */
  type NumberText = s: Bytes | forall i :: 0 <= i < |s| ==> IsAlphanumeric(s[i]) || s[i] == 45 || s[i] == 46

  datatype Json =
    | Null
    | Bool(b: bool)
    | Number(digits: NumberText)
    | Str(text: Bytes)
    | Array(items: seq<Json>)
    | Object(members: seq<(Bytes, Json)>)

  datatype ParameterError = NestedValue | ExpectedObject | ExpectedComposite | FormBodyNotObject

  datatype Result<+T> = Success(value: T) | Failure(error: ParameterError) {
    predicate IsFailure() {
      Failure?
    }

    function PropagateFailure<U>(): Result<U>
      requires Failure?
    {
      Failure(error)
    }

    function Extract(): T
      requires Success?
    {
      value
    }
  }

  const TRUE: Bytes := [116, 114, 117, 101]
  const FALSE: Bytes := [102, 97, 108, 115, 101]

  function Texts(values: seq<Bytes>): seq<Json> {
    if values == [] then [] else [Str(values[0])] + Texts(values[1..])
  }

  /** One value without delimiters of its own; an array or object is refused. */
  function Scalar(value: Json, encoding: PercentEncoding): Result<Bytes> {
    match value
    case Null => Success([])
    case Bool(b) => Success(if b then TRUE else FALSE)
    case Number(text) => Success(text)
    case Str(text) => Success(Encoded(text, encoding))
    case _ => Failure(NestedValue)
  }

  /** Every value as a scalar, or the refusal of the first that is none. */
  function Scalars(values: seq<Json>, encoding: PercentEncoding): Result<seq<Bytes>> {
    if values == [] then Success([])
    else
      var first :- Scalar(values[0], encoding);
      var rest :- Scalars(values[1..], encoding);
      Success([first] + rest)
  }

  /** The members as alternating keys and values. */
  function FlatParts(members: seq<(Bytes, Json)>, encoding: PercentEncoding): Result<seq<Bytes>> {
    if members == [] then Success([])
    else
      var value :- Scalar(members[0].1, encoding);
      var rest :- FlatParts(members[1..], encoding);
      Success([Encoded(members[0].0, encoding), value] + rest)
  }

  /** The members as `key=value` fragments. */
  function ObjectPairs(members: seq<(Bytes, Json)>, encoding: PercentEncoding): Result<seq<Bytes>> {
    if members == [] then Success([])
    else
      var value :- Scalar(members[0].1, encoding);
      var rest :- ObjectPairs(members[1..], encoding);
      Success([Encoded(members[0].0, encoding) + [EQUALS] + value] + rest)
  }

  /** The parts with `separator` between each two of them. */
  function JoinBy(parts: seq<Bytes>, separator: Bytes): Bytes {
    if parts == [] then []
    else if |parts| == 1 then parts[0]
    else parts[0] + separator + JoinBy(parts[1..], separator)
  }

  lemma {:induction false} JoinByOne(parts: seq<Bytes>, d: Byte)
    ensures JoinBy(parts, [d]) == Join(parts, d)
  {
    if |parts| > 1 {
      JoinByOne(parts[1..], d);
    }
  }

  function JoinScalars(values: seq<Json>, separator: Bytes, encoding: PercentEncoding): Result<Bytes> {
    var parts :- Scalars(values, encoding);
    Success(JoinBy(parts, separator))
  }

  function ObjectFlat(members: seq<(Bytes, Json)>, separator: Bytes, encoding: PercentEncoding): Result<Bytes> {
    var parts :- FlatParts(members, encoding);
    Success(JoinBy(parts, separator))
  }
}
