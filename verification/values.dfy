/** The slice of Python's value and exception model that the integration's
    status layer relies on: attribute values of decoded printer replies,
    the values the parsers store into their result dictionaries, the
    exceptions that can cross a call, and the built-in conversions `int()`
    and `float()` together with truthiness. */
module Values {
  import opened Text

  /** A value held by an attribute of a decoded reply. Replies arrive as
      text; the in-place unit conversions write numbers back.
      `Sixtieths(n)` is the Python float `n / 60` (a true division). */
  datatype Attr = Str(s: string) | Whole(i: int) | Sixtieths(n: int)

  /** A value stored in a parser's result dictionary: `None`, a plain
      attribute value, or the float produced by `float()` of an attribute
      (left symbolic: floating point is not modelled). */
  datatype Value = Missing | Plain(a: Attr) | FloatOf(a: Attr)

  /** A decoded reply: attribute name to value; absent names are attributes
      the object does not have. */
  type Record = map<string, Attr>

  /** A parser's result dictionary (insertion order is not modelled). */
  type Extras = map<string, Value>

  /** The exception classes that the modelled code raises, catches or lets
      through. `Other` stands for any exception the transport may raise
      that the code does not name. */
  datatype Error =
    | ValueError
    | TypeError
    | AttributeError
    | KeyError
    | OSError
    | ConnectionRefusedError
    | RuntimeError
    | ConnectionException
    | AnycubicException
    | AnycubicMonoXAPILevel
    | UpdateFailed
    | Other

  /** `except OSError` also catches `ConnectionRefusedError`, its subclass. */
  predicate IsOSError(e: Error) {
    e == OSError || e == ConnectionRefusedError
  }

  /** `except AnycubicException` also catches `AnycubicMonoXAPILevel`, its subclass. */
  predicate IsAnycubic(e: Error) {
    e == AnycubicException || e == AnycubicMonoXAPILevel
  }

  /** The result of a Python call: a returned value or a raised exception. */
  datatype Outcome<+T> = Ok(value: T) | Raised(error: Error) {
    predicate IsFailure() {
      Raised?
    }

    function PropagateFailure<U>(): Outcome<U>
      requires Raised?
    {
      Raised(error)
    }

    function Extract(): T
      requires Ok?
    {
      value
    }
  }

  /** Python's `int(a / 60)`: true division, then truncation toward zero
      (Dafny's `/` rounds toward negative infinity here). */
  function TruncDiv60(a: int): (q: int)
    ensures a >= 0 ==> 0 <= q * 60 <= a < q * 60 + 60
    ensures a < 0 ==> q * 60 - 60 < a <= q * 60 <= 0
  {
    if a >= 0 then a / 60 else -((-a) / 60)
  }

  /** Python truthiness of an attribute value. */
  predicate Truthy(a: Attr) {
    match a
    case Str(s) => |s| > 0
    case Whole(i) => i != 0
    case Sixtieths(n) => n != 0
  }

  /** A config-entry option value: a boolean, or some other Python value
      of the given truthiness. */
  datatype Setting = Flag(on: bool) | OtherSetting(truthy: bool)

  /** Python truthiness of an option value. */
  predicate Enabled(s: Setting) {
    match s
    case Flag(b) => b
    case OtherSetting(t) => t
  }

  /** Python's `int(a)`: text must be a decimal integer literal (surrounding
      white space allowed), a float truncates toward zero. */
  function ToInt(a: Attr): (r: Outcome<int>)
    ensures a.Whole? ==> r == Ok(a.i)
    ensures a.Sixtieths? ==> r == Ok(TruncDiv60(a.n))
    ensures a.Str? ==> (r.Ok? <==> ParseInt(a.s).Some?)
    ensures a.Str? && r.Ok? ==> r.value == ParseInt(a.s).value
    ensures r.Raised? ==> r.error == ValueError
  {
    match a
    case Str(s) =>
      (match ParseInt(s)
       case Some(n) => Ok(n)
       case None => Raised(ValueError))
    case Whole(i) => Ok(i)
    case Sixtieths(n) => Ok(TruncDiv60(n))
  }

  /** Python's `float(a)`: numbers always convert; text must be a decimal
      floating-point literal, otherwise `ValueError`. */
  function ToFloat(a: Attr): (r: Outcome<Value>)
    ensures r.Ok? ==> r.value == FloatOf(a)
    ensures r.Raised? <==> a.Str? && !IsFloatLiteral(Strip(a.s))
    ensures r.Raised? ==> r.error == ValueError
  {
    match a
    case Str(s) => if IsFloatLiteral(Strip(s)) then Ok(FloatOf(a)) else Raised(ValueError)
    case _ => Ok(FloatOf(a))
  }

  /** Every text that `int()` accepts is accepted by `float()` too. */
  lemma IntTextIsFloatText(s: string)
    requires ParseInt(s).Some?
    ensures ToFloat(Str(s)).Ok?
  {
    var t := Strip(s);
    var body := Unsigned(t);
    assert |body| > 0 && AllDigits(body);
    LeadingDigitsOfDigits(body);
  }
}
