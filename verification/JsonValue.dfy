/** JSON values as the writer and the parser use them: jsoncpp's Json::Value with its indexing
    operators. Indexing creates what is missing and throws on a value of the wrong kind. */
module JsonValue {

  /** `Scalar` stands for a boolean or a number, with the text it is read back as. */
  datatype Json =
    | Null
    | Str(text: string)
    | Scalar(text: string)
    | Arr(items: seq<Json>)
    | Obj(members: map<string, Json>)

  datatype Result<T> = Ok(value: T) | Thrown

  datatype Step = Key(name: string) | At(index: nat)

  type Path = seq<Step>

  /** The value behind one step, null when there is none. */
  function Child(j: Json, step: Step): Json {
    match (step, j)
    case (Key(k), Obj(m)) => if k in m then m[k] else Null
    case (At(i), Arr(a)) => if i < |a| then a[i] else Null
    case _ => Null
  }

  /** Can the indexing operator be applied? */
  predicate Indexable(j: Json, step: Step) {
    j.Null? || (if step.Key? then j.Obj? else j.Arr?)
  }

  /** The container with the value behind one step replaced; an array grows by nulls as needed. */
  function WithChild(j: Json, step: Step, v: Json): Json
    requires Indexable(j, step)
  {
    match step
    case Key(k) => Obj((if j.Obj? then j.members else map[])[k := v])
    case At(i) =>
      var a := if j.Arr? then j.items else [];
      var grown := if i < |a| then a else a + seq(i + 1 - |a|, _ => Null);
      Arr(grown[i := v])
  }

  function Get(j: Json, p: Path): Json
    decreases p
  {
    if p == [] then j else Get(Child(j, p[0]), p[1..])
  }

  /** j[p0][p1]... = v */
  function Put(j: Json, p: Path, v: Json): Result<Json>
    decreases p
  {
    if p == [] then Ok(v)
    else if !Indexable(j, p[0]) then Thrown
    else match Put(Child(j, p[0]), p[1..], v)
      case Ok(c) => Ok(WithChild(j, p[0], c))
      case Thrown => Thrown
  }

  /** Reading through the indexing operators leaves the value with the missing parts created. */
  function Touch(j: Json, p: Path): Result<Json> {
    Put(j, p, Get(j, p))
  }

  /** Every step of `p` can be taken. */
  predicate Fits(j: Json, p: Path)
    decreases p
  {
    p == [] || (Indexable(j, p[0]) && Fits(Child(j, p[0]), p[1..]))
  }

  /** The paths part ways at two different keys or at two different indices. */
  predicate Diverge(p: Path, q: Path) {
    && p != [] && q != []
    && if p[0] == q[0] then Diverge(p[1..], q[1..]) else p[0].Key? == q[0].Key?
  }

  lemma ChildOfWithChild(j: Json, step: Step, v: Json, other: Step)
    requires Indexable(j, step)
    ensures Child(WithChild(j, step, v), step) == v
    ensures other != step ==> Child(WithChild(j, step, v), other) == Child(j, other)
    ensures Indexable(WithChild(j, step, v), other) == (other.Key? == step.Key?)
  {
  }

  /** A write succeeds exactly on a path that fits, is read back, and leaves the path fitting. */
  lemma {:induction false} PutGet(j: Json, p: Path, v: Json)
    ensures Put(j, p, v).Ok? <==> Fits(j, p)
    ensures Fits(j, p) ==> Get(Put(j, p, v).value, p) == v && Fits(Put(j, p, v).value, p)
    decreases p
  {
    if p != [] && Indexable(j, p[0]) {
      PutGet(Child(j, p[0]), p[1..], v);
      if Fits(j, p) {
        ChildOfWithChild(j, p[0], Put(Child(j, p[0]), p[1..], v).value, p[0]);
      }
    }
  }

  /** A write disturbs nothing on a path that diverges from it. */
  lemma {:induction false} PutElsewhere(j: Json, p: Path, v: Json, q: Path)
    requires Fits(j, p) && Fits(j, q) && Diverge(p, q)
    ensures Put(j, p, v).Ok?
    ensures Get(Put(j, p, v).value, q) == Get(j, q)
    ensures Fits(Put(j, p, v).value, q)
    decreases p
  {
    PutGet(j, p, v);
    PutGet(Child(j, p[0]), p[1..], v);
    var c := Put(Child(j, p[0]), p[1..], v).value;
    ChildOfWithChild(j, p[0], c, q[0]);
    if p[0] == q[0] {
      PutElsewhere(Child(j, p[0]), p[1..], v, q[1..]);
    }
  }

  lemma {:induction false} GetOfNull(q: Path)
    ensures Get(Null, q) == Null
  {
    if q != [] {
      GetOfNull(q[1..]);
    }
  }

  lemma {:induction false} GetAppend(j: Json, p: Path, q: Path)
    ensures Get(j, p + q) == Get(Get(j, p), q)
    ensures Fits(j, p + q) <==> Fits(j, p) && Fits(Get(j, p), q)
    decreases p
  {
    if p == [] {
      assert p + q == q;
    } else {
      assert (p + q)[1..] == p[1..] + q;
      GetAppend(Child(j, p[0]), p[1..], q);
    }
  }

  /** jsoncpp throws when a name is asked of a value that is neither null nor an object, and when an index
      is asked of one that is neither null nor an array. */
  lemma IndexingThrowsIff(j: Json, name: string, i: nat, v: Json)
    ensures Put(j, [Key(name)], v).Thrown? <==> j.Str? || j.Scalar? || j.Arr?
    ensures Put(j, [At(i)], v).Thrown? <==> j.Str? || j.Scalar? || j.Obj?
  {
  }

  /** A path through a text that was written before is refused. */
  lemma PutThroughText(j: Json, p: Path, text: string, q: Path, v: Json)
    requires Fits(j, p) && q != []
    ensures Put(j, p, Str(text)).Ok? && Put(Put(j, p, Str(text)).value, p + q, v).Thrown?
  {
    PutGet(j, p, Str(text));
    var t := Put(j, p, Str(text)).value;
    GetAppend(t, p, q);
    PutGet(t, p + q, v);
  }
}
