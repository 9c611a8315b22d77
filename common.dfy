/** Values shared by every component: optional values, results with an
    error message, and the dynamically typed values that Python dictionaries
    (chunk metadata, stored records, chat messages) hold. */
module Common {

  datatype Option<+T> = None | Some(value: T)

  /** The outcome of a step that may raise: `Err` carries the exception's text. */
  datatype Result<+T> = Ok(value: T) | Err(message: string)

  /** A Python value as it can occur in a metadata or record dictionary.
      `Other` stands for any other object (None included) and carries what
      `str()` gives for it. */
  datatype Value =
    | Str(s: string)
    | Int(i: int)
    | Float(x: real)
    | Bool(b: bool)
    | List(items: seq<Value>)
    | Dict(fields: map<string, Value>)
    | Other(repr: string)

  /** A Python dict from string keys to values. */
  type Metadata = map<string, Value>

  /** Python's `x or default` on an optional string: None and "" are falsy. */
  function OrString(x: Option<string>, default: string): (r: string)
    ensures x.Some? && x.value != "" ==> r == x.value
    ensures (x.None? || x.value == "") ==> r == default
  {
    if x.Some? && x.value != "" then x.value else default
  }

  /** Python's `x or default` on an optional int: None and 0 are falsy. */
  function OrInt(x: Option<int>, default: int): (r: int)
    ensures x.Some? && x.value != 0 ==> r == x.value
    ensures (x.None? || x.value == 0) ==> r == default
  {
    if x.Some? && x.value != 0 then x.value else default
  }

  /** A subset has at most as many elements as its superset. */
  lemma SubsetCard<T>(a: set<T>, b: set<T>)
    requires a <= b
    ensures |a| <= |b|
  {
    assert b == a + (b - a);
  }

  function Min(a: int, b: int): int
  {
    if a <= b then a else b
  }
}
