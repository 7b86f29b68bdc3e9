/**
 * The `preHandler` hook of src/http.js: when the request body is an
 * object, every top-level property whose value is a string is replaced,
 * in place, by its trim. A JSON array is an object too, so its top-level
 * string elements are trimmed the same way (`for...in` visits its indices).
 */
module BodyHook {
  import opened JsString

  /** A parsed request body, or any value inside one. */
  datatype Value =
    | Undefined
    | Null
    | Bool(b: bool)
    | Num(x: real)
    | Str(s: string)
    | Arr(items: seq<Value>)
    | Obj(fields: map<string, Value>)

  /** The update the loop body makes to one property. */
  function TrimProperty(v: Value): (r: Value)
    ensures r.Str? <==> v.Str?
    ensures v.Str? ==> r.s == Trim(v.s)
    ensures !v.Str? ==> r == v
  {
    if v.Str? then Str(Trim(v.s)) else v
  }

  /** The body as the hook leaves it. */
  function Normalised(body: Value): (r: Value)
  {
    match body
    case Obj(fields) => Obj(map k | k in fields :: TrimProperty(fields[k]))
    case Arr(items) => Arr(seq(|items|, i requires 0 <= i < |items| => TrimProperty(items[i])))
    case _ => body
  }

  /**
   * On an object body the key set is kept, every string property becomes
   * the trim of what it was, and every other property (nested objects and
   * arrays included) is left as it was.
   */
  lemma NormalisedObject(fields: map<string, Value>)
    ensures Normalised(Obj(fields)).Obj?
    ensures Normalised(Obj(fields)).fields.Keys == fields.Keys
    ensures forall k :: k in fields && fields[k].Str? ==>
              Normalised(Obj(fields)).fields[k] == Str(Trim(fields[k].s))
    ensures forall k :: k in fields && !fields[k].Str? ==>
              Normalised(Obj(fields)).fields[k] == fields[k]
  {
  }

  /** A body that is not an object (absent, null, a boolean, number or string) is untouched. */
  lemma NormalisedNonObject(body: Value)
    requires !body.Obj? && !body.Arr?
    ensures Normalised(body) == body
  {
  }

  /** Running the hook a second time changes nothing. */
  lemma NormalisedIdempotent(body: Value)
    ensures Normalised(Normalised(body)) == Normalised(body)
  {
    match body
    case Obj(fields) =>
      var once := Normalised(body).fields;
      var twice := Normalised(Normalised(body)).fields;
      forall k | k in fields ensures twice[k] == once[k] {
        if fields[k].Str? { TrimIdempotent(fields[k].s); }
      }
      assert twice == once;
    case Arr(items) =>
      var once := Normalised(body).items;
      var twice := Normalised(Normalised(body)).items;
      forall i | 0 <= i < |items| ensures twice[i] == once[i] {
        if items[i].Str? { TrimIdempotent(items[i].s); }
      }
      assert twice == once;
    case _ =>
  }

  /**
   * Each property is handled on its own: setting one property and then
   * normalising is normalising and then setting its trimmed value.
   */
  lemma NormalisedUpdate(fields: map<string, Value>, k: string, v: Value)
    ensures Normalised(Obj(fields[k := v]))
         == Obj(Normalised(Obj(fields)).fields[k := TrimProperty(v)])
  {
    var a := Normalised(Obj(fields[k := v])).fields;
    var b := Normalised(Obj(fields)).fields[k := TrimProperty(v)];
    assert a.Keys == b.Keys;
    forall j | j in a ensures a[j] == b[j] {
      if j != k { assert a[j] == TrimProperty(fields[j]); }
    }
    assert a == b;
  }

  /** The body `{"name": "  Alice  ", "age": 30, "meta": {"x": " y "}}` becomes `{"name": "Alice", ...}`. */
  lemma NormalisedExample()
    ensures Normalised(Obj(map["name" := Str("  Alice  "), "age" := Num(30.0),
                                "meta" := Obj(map["x" := Str(" y ")])]))
         == Obj(map["name" := Str("Alice"), "age" := Num(30.0),
                    "meta" := Obj(map["x" := Str(" y ")])])
  {
    TrimExample();
    var empty: map<string, Value> := map[];
    assert Normalised(Obj(empty)).fields == empty;
    NormalisedUpdate(empty, "name", Str("  Alice  "));
    NormalisedUpdate(empty["name" := Str("  Alice  ")], "age", Num(30.0));
    NormalisedUpdate(empty["name" := Str("  Alice  ")]["age" := Num(30.0)],
                     "meta", Obj(map["x" := Str(" y ")]));
  }

  /** An incoming request; only its body is of interest here. */
  class Request {
    var body: Value

    constructor (body: Value)
      ensures this.body == body
    {
      this.body := body;
    }

    /** The hook: trims the body's top-level string properties in place. */
    method PreHandler()
      modifies this
      ensures body == Normalised(old(body))
    {
      match body
      case Obj(fields) =>
        var pending := fields.Keys;
        while pending != {}
          invariant pending <= fields.Keys
          invariant body.Obj? && body.fields.Keys == fields.Keys
          invariant forall k :: k in fields ==>
                      body.fields[k] == if k in pending then fields[k] else TrimProperty(fields[k])
          decreases pending
        {
          var k :| k in pending;
          if body.fields[k].Str? {
            body := Obj(body.fields[k := Str(Trim(body.fields[k].s))]);
          }
          pending := pending - {k};
        }
        assert body.fields == Normalised(Obj(fields)).fields;
      case Arr(items) =>
        for i := 0 to |items|
          invariant body.Arr? && |body.items| == |items|
          invariant forall j :: 0 <= j < |items| ==>
                      body.items[j] == if j < i then TrimProperty(items[j]) else items[j]
        {
          if body.items[i].Str? {
            body := Arr(body.items[i := Str(Trim(body.items[i].s))]);
          }
        }
        assert body.items == Normalised(Arr(items)).items;
      case _ =>
    }
  }
}
