// The browser's local key-value store as the progress tracker uses it:
// every value is written as JSON text and read back through JSON.parse.

module Storage {

  /** A parsed JSON value, reduced to what the tracker can observe of it.
      Null is what JSON.parse yields for a key that was never written
      (localStorage.getItem gives null, and JSON.parse(null) is null).
      Other stands for any number, string, array or object, with the
      JavaScript truthiness of that value. */
  datatype Json = Null | Bool(b: bool) | Other(truthy: bool)

  /** The text held under one key: either JSON text that parses to a value,
      or text that JSON.parse rejects. */
  datatype Stored = Text(json: Json) | Malformed

  /** JSON.parse throws a SyntaxError on malformed text; nothing catches it. */
  datatype LoadError = SyntaxError

  datatype Result<T> = Ok(value: T) | Err(error: LoadError)

  /** JavaScript truthiness of a parsed value. */
  predicate Truthy(v: Json) {
    match v
    case Null => false
    case Bool(b) => b
    case Other(t) => t
  }

  /** loadProgress(key): JSON.parse(localStorage.getItem(key)) || false.
      A falsy parsed value is replaced by false; a truthy one is returned
      unchanged; malformed text raises. */
  function Load(items: map<string, Stored>, key: string): (r: Result<Json>)
    ensures r.Err? <==> key in items && items[key].Malformed?
    ensures key !in items ==> r == Ok(Bool(false))
    ensures r.Ok? ==> Truthy(r.value) || r.value == Bool(false)
    ensures r.Ok? && key in items ==> (Truthy(r.value) <==> Truthy(items[key].json))
    ensures r.Ok? && Truthy(r.value) ==> key in items && r.value == items[key].json
  {
    var parsed := if key in items then items[key] else Text(Null);
    match parsed
    case Malformed => Err(SyntaxError)
    case Text(v) => Ok(if Truthy(v) then v else Bool(false))
  }

  /** The key loads without error and what it loads is truthy: the test
      that `filter(key => loadProgress(key))` and `if (loadProgress(...))`
      apply. */
  predicate IsSet(items: map<string, Stored>, key: string)
  {
    Load(items, key).Ok? && Truthy(Load(items, key).value)
  }

  /** A key is set exactly when it holds well-formed JSON text whose value
      is truthy: the `|| false` never turns a falsy value into a set one. */
  lemma IsSetIffStoredTruthy(items: map<string, Stored>, key: string)
    ensures IsSet(items, key) <==> key in items && items[key].Text? && Truthy(items[key].json)
  {
  }

  /** Loading the key raises. */
  predicate Unreadable(items: map<string, Stored>, key: string) {
    Load(items, key).Err?
  }

  /** What saveProgress(key, value) leaves in the store for a boolean value:
      JSON.stringify(true) is "true", which parses back to true. */
  function Saved(items: map<string, Stored>, key: string, value: bool): (r: map<string, Stored>)
    ensures Load(r, key) == Ok(Bool(value))
    ensures forall k :: k != key ==> Load(r, k) == Load(items, k)
    ensures r.Keys == items.Keys + {key}
  {
    items[key := Text(Bool(value))]
  }

  /** A key that was never written loads as false. */
  lemma LoadNeverWritten(items: map<string, Stored>, key: string)
    requires key !in items
    ensures Load(items, key) == Ok(Bool(false))
    ensures !IsSet(items, key) && !Unreadable(items, key)
  {
  }

  /** Saving a boolean and loading it back gives the same boolean, and the
      key is then set exactly when the boolean is true. */
  lemma SaveLoadRoundTrip(items: map<string, Stored>, key: string, value: bool)
    ensures Load(Saved(items, key, value), key) == Ok(Bool(value))
    ensures IsSet(Saved(items, key, value), key) <==> value
  {
  }

  /** The browser's localStorage for this origin. */
  class LocalStore {
    var items: map<string, Stored>

    constructor (initial: map<string, Stored>)
      ensures items == initial
    {
      items := initial;
    }

    /** saveProgress(key, value): localStorage.setItem(key, JSON.stringify(value)). */
    method Save(key: string, value: bool)
      modifies this
      ensures items == Saved(old(items), key, value)
      ensures Load(items, key) == Ok(Bool(value))
      ensures forall k :: k != key ==> Load(items, k) == Load(old(items), k)
    {
      items := Saved(items, key, value);
    }
  }
}
