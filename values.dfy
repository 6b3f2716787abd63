/** Python values as the configuration layer hands them out: settings come from
    the command line (strings and booleans), from `sprite.conf` files (strings,
    with `true`/`false` turned into booleans) and from the built-in defaults. */
module Values {
  import opened Text
  import opened Options

  datatype Value = PyNone | Bool(b: bool) | Int(i: int) | Str(s: string)

  /** Python truthiness: `None`, `False`, `0` and `''` are false. */
  predicate Truthy(v: Value) {
    match v
    case PyNone => false
    case Bool(b) => b
    case Int(i) => i != 0
    case Str(s) => s != ""
  }

  /** Python's `str(v)`. */
  function PyStr(v: Value): string {
    match v
    case PyNone => "None"
    case Bool(b) => if b then "True" else "False"
    case Int(i) => IntToString(i)
    case Str(s) => s
  }

  /** An integer setting written with `str` reads back with `int`. */
  lemma PyStrOfInt(i: int)
    ensures ParseInt(PyStr(Int(i))) == Some(i)
  {
    ParseIntToString(i);
  }

  /** `str` tells apart any two values that are not strings (`None`, booleans
      and integers print differently), and any two strings: a setting's text
      in the hash changes whenever its value does, unless a string is
      compared with a value of another kind. */
  lemma PyStrDistinguishes(a: Value, b: Value)
    requires (!a.Str? && !b.Str?) || (a.Str? && b.Str?)
    requires PyStr(a) == PyStr(b)
    ensures a == b
  {
    if a.Int? && b.Int? {
      IntToStringInjective(a.i, b.i);
    } else if a.Int? || b.Int? {
      IntToStringHead(if a.Int? then a.i else b.i);
      assert false;
    }
  }

  /** A printed integer starts with a sign or a digit. */
  lemma IntToStringHead(i: int)
    ensures IntToString(i)[0] == '-' || IsDigit(IntToString(i)[0])
  {
  }
}

/** The exceptions the core raises, and a result type carrying them. */
module Errors {
  import opened Text
  import opened Options
  import opened Values

  datatype Error =
    | InvalidImageOrdering(ordering: string)
    | InvalidImageAlgorithm(algorithm: Value)
    | SourceImagesNotFound(path: string)
    | MultipleImagesWithSameName(paths: seq<string>)
    | ValueError
    | TypeError
    | IndexError
    | AttributeError

  datatype Result<+T> = Ok(value: T) | Err(error: Error) {
    predicate IsFailure() { Err? }

    function PropagateFailure<U>(): Result<U>
      requires Err?
    {
      Err(error)
    }

    function Extract(): T
      requires Ok?
    {
      value
    }
  }

  /** Python's `int(v)`: booleans count as 0 and 1, strings are parsed, `None`
      is a TypeError and an unparsable string a ValueError. */
  function IntOf(v: Value): (r: Result<int>)
    ensures v.PyNone? <==> r == Err(TypeError)
    ensures v.Int? ==> r == Ok(v.i)
    ensures v.Bool? ==> r == Ok(if v.b then 1 else 0)
    ensures v.Str? ==> (r.Ok? <==> ParseInt(v.s).Some?)
    ensures r.Ok? && v.Str? ==> r.value == ParseInt(v.s).value
    ensures r.Err? ==> r.error == TypeError || r.error == ValueError
  {
    match v
    case PyNone => Err(TypeError)
    case Bool(b) => Ok(if b then 1 else 0)
    case Int(i) => Ok(i)
    case Str(s) =>
      match ParseInt(s)
      case Some(n) => Ok(n)
      case None => Err(ValueError)
  }

  /** `int(str(i)) == i` for a setting written as text. */
  lemma IntOfPrintedInt(i: int)
    ensures IntOf(Str(IntToString(i))) == Ok(i)
  {
    ParseIntToString(i);
  }
}
