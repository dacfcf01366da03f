// Parsed JSON values as the front end and its build scripts see them: objects keep the
// order of their entries.
module JsonValues {
  import opened Results
  import opened Records

  /** A parsed JSON value. Object entries keep their order. */
  datatype Json =
    | JNull
    | JBool(b: bool)
    | JNumber(n: int)
    | JString(s: string)
    | JObject(fields: Record<Json>)
  {
    /** `typeof v === "object"`: true for objects and for null. */
    predicate IsObjectType() { JNull? || JObject? }
  }

  function JsonSize(j: Json): nat
    decreases j
  {
    match j
    case JObject(fields) => 1 + RecordSize(fields)
    case _ => 1
  }

  function RecordSize(r: Record<Json>): nat
    decreases r
  {
    if r == [] then 0
    else
      var e := r[0];
      assert e in r;
      assert e.1 < e;
      JsonSize(e.1) + RecordSize(r[1..])
  }

  lemma {:induction false} GetSize(r: Record<Json>, k: string)
    requires HasKey(r, k)
    ensures JsonSize(Get(r, k).value) <= RecordSize(r)
    decreases |r|
  {
    if r[0].0 != k {
      assert HasKey(r[1..], k) by {
        var i :| 0 <= i < |r| && r[i].0 == k;
        assert r[1..][i - 1].0 == k;
      }
      GetSize(r[1..], k);
    }
  }

  /** JavaScript truthiness of a JSON value. */
  predicate Truthy(j: Json)
  {
    match j
    case JNull => false
    case JBool(b) => b
    case JNumber(n) => n != 0
    case JString(s) => s != ""
    case JObject(_) => true
  }
}
