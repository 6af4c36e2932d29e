/**
 * An already-parsed JSON value, as far as the event classifier looks at it, and the
 * three library operations it uses: `contains(key)`, the const `operator[](key)`
 * and the implicit conversion to `std::string`.
 */
module Json {
  import opened Wrappers

  /** Numbers, booleans, null and arrays are all `Other`: the classifier never looks inside them. */
  datatype Json = Object(members: map<string, Json>) | Str(text: string) | Other

  /**
   * `TypeError`: the library's type_error exception (indexing a non-object by key,
   * converting a non-string to a string). `MissingKey`: the const `operator[]` on a
   * key the object lacks, undefined behaviour in the library, taken here as a failure.
   */
  datatype JsonError = TypeError | MissingKey

  /** `j.contains(key)`: false on anything that is not an object. */
  predicate Contains(j: Json, key: string) {
    j.Object? && key in j.members
  }

  /** The const `j[key]`. */
  function At(j: Json, key: string): Result<Json, JsonError> {
    if !j.Object? then Failure(TypeError)
    else if key !in j.members then Failure(MissingKey)
    else Success(j.members[key])
  }

  /** `j[path[0]][path[1]]...`, each step a const `operator[]`. */
  function Walk(j: Json, path: seq<string>): Result<Json, JsonError>
    decreases |path|
  {
    if path == [] then Success(j)
    else
      var child :- At(j, path[0]);
      Walk(child, path[1..])
  }

  /** Assigning a JSON value to a `std::string`. */
  function AsString(j: Json): Result<string, JsonError> {
    if j.Str? then Success(j.text) else Failure(TypeError)
  }

  /** `std::string s = j[path[0]]...[path[n-1]]`. */
  function StringAt(j: Json, path: seq<string>): Result<string, JsonError> {
    var v :- Walk(j, path);
    AsString(v)
  }

  /** Every key of the path is present, each in an object. */
  predicate HasPath(j: Json, path: seq<string>) {
    Walk(j, path).Success?
  }

  /** Walking a path in two legs is walking it in one. */
  lemma {:induction false} WalkAppend(j: Json, p: seq<string>, q: seq<string>)
    requires HasPath(j, p)
    ensures Walk(j, p + q) == Walk(Walk(j, p).value, q)
    decreases |p|
  {
    if p != [] {
      assert (p + q)[0] == p[0] && (p + q)[1..] == p[1..] + q;
      assert At(j, p[0]).Success?;
      var child := j.members[p[0]];
      assert Walk(j, p) == Walk(child, p[1..]);
      WalkAppend(child, p[1..], q);
      assert Walk(j, p + q) == Walk(child, p[1..] + q);
    } else {
      assert p + q == q;
    }
  }

  /** A path is present exactly when each of its keys is contained in the object reached so far. */
  lemma {:induction false} HasPathStep(j: Json, p: seq<string>, key: string)
    requires HasPath(j, p)
    ensures HasPath(j, p + [key]) <==> Contains(Walk(j, p).value, key)
    ensures HasPath(j, p + [key]) ==> Walk(j, p + [key]).value == Walk(j, p).value.members[key]
  {
    WalkAppend(j, p, [key]);
  }
}
