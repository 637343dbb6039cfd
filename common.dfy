/** Values shared by the companion service: optional values, results, the
    companion record and the errors the service raises. */
module Common {

  datatype Option<+T> = None | Some(value: T) {
    function GetOr(default: T): T {
      match this
      case Some(v) => v
      case None => default
    }
  }

  /** A row of the `companions` table. `author` is absent when the row was
      created without an authenticated user. */
  datatype Companion = Companion(
    id: string,
    name: string,
    subject: string,
    topic: string,
    duration: nat,
    color: string,
    author: Option<string>)

  /** An error reported by the data store, with its message. */
  datatype StoreError = StoreError(message: string)

  /** The message the store gives when `maybeSingle()` meets more than one row. */
  const MultipleRowsMessage: string := "JSON object requested, multiple (or no) rows returned"

  /** The errors the service throws. */
  datatype ServiceError =
    | NotAuthenticated
    | AlreadyBookmarked
    | CheckFailed(cause: StoreError)
    | StoreFailed(cause: StoreError)
  {
    /** The message of the `Error` the service throws. */
    function Message(): string {
      match this
      case NotAuthenticated => "User not authenticated"
      case AlreadyBookmarked => "Companion is already bookmarked"
      case CheckFailed(c) => "Failed to check existing bookmark: " + c.message
      case StoreFailed(c) => c.message
    }
  }

  datatype Result<+T> = Ok(value: T) | Err(error: ServiceError)

  /** JavaScript truthiness of an optional string: absent and "" are both falsy. */
  predicate Present(s: Option<string>) {
    s.Some? && s.value != ""
  }

  /** The companion a foreign key points at: the row of the `companions`
      table whose `id` is the key, or null when there is none (the store's
      embedded `companions: companion_id (*)` select). */
  function Lookup(companions: seq<Companion>, id: string): (r: Option<Companion>)
    ensures r.Some? <==> exists c :: c in companions && c.id == id
    ensures r.Some? ==> r.value in companions && r.value.id == id
  {
    if companions == [] then None
    else if companions[0].id == id then Some(companions[0])
    else Lookup(companions[1..], id)
  }

  /** `filter(Boolean)` on a list of possibly-null rows: the present values,
      in order. */
  function Somes(s: seq<Option<Companion>>): (r: seq<Companion>)
    ensures |r| <= |s|
    ensures forall x :: x in r <==> Some(x) in s
  {
    if s == [] then []
    else if s[0].Some? then [s[0].value] + Somes(s[1..])
    else Somes(s[1..])
  }

  /** Dropping nulls keeps the order of the rows: it distributes over
      concatenation. */
  lemma {:induction false} SomesAppend(a: seq<Option<Companion>>, b: seq<Option<Companion>>)
    ensures Somes(a + b) == Somes(a) + Somes(b)
  {
    if a == [] {
      assert a + b == b;
    } else {
      assert (a + b)[0] == a[0];
      assert (a + b)[1..] == a[1..] + b;
      SomesAppend(a[1..], b);
    }
  }
}
