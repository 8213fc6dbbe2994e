/** The parser's OID cursor: GetFirstElementFromOid walks the tree along the tags of an OID,
    GetNextElementFromOid moves on in the array it found there. */
module JsonCursor {
  import opened Basics
  import opened JsonValue
  import JsonWriter

  /** JSON_OID_TAG: one tag of the OID; `size` is that of the array found there, `index` the next
      element to read. */
  datatype Tag = Tag(subOid: string, arrayElem: string, index: nat, size: nat)

  /** The parser's fields: the last value, the last array, the column read from it, the tag of that
      array, and the tags walked so far. */
  datatype Cursor = Cursor(value: Json, list: Json, elem: string, crt: Option<nat>, tags: seq<Tag>)

  /** What a call returns; `Failed` stands for an exception of jsoncpp or an access out of range. */
  datatype Fetch = Text(text: string) | Nothing | Failed

  function TextOf(v: Json): Fetch {
    if v.Str? || v.Scalar? then Text(v.text) else Nothing
  }

  /** The steps from an array to its element number `i`, or to one column of it. */
  function Cell(elem: string, i: nat): Path {
    if elem == "" then [At(i)] else [At(i), Key(elem)]
  }

  /** The array at hand, the column to read, whether the next tag is used up, and the array's size. */
  datatype Entered = Entered(list: Json, elem: string, skip: bool, size: nat)

  /** Entering an array whose next tag is `sub`: if the first element has a plain value under that
      name it is a column, if the name is empty the elements themselves are read. */
  function Enter(v: Json, sub: string): Result<Entered>
    requires v.Arr?
  {
    if sub == "" then Ok(Entered(v, "", true, |v.items|))
    else match Touch(v, [At(0), Key(sub)])
      case Thrown => Thrown
      case Ok(a) =>
        var next := Get(v, [At(0), Key(sub)]);
        var size := if a.Arr? then |a.items| else 0;
        if next.Str? || next.Scalar? then Ok(Entered(a, sub, true, size)) else Ok(Entered(a, "", false, size))
  }

  /** The loop of GetFirstElementFromOid from tag number `i` on, with `arrays` arrays met so far.
      The flag tells whether the walk got past the last tag. */
  function Walk(c: Cursor, oid: seq<string>, i: nat, arrays: nat): Result<(Cursor, bool)>
    decreases |oid| - i
  {
    if i >= |oid| then Ok((c, true))
    else if !Indexable(c.value, Key(oid[i])) then Thrown
    else
      var v := Child(c.value, Key(oid[i]));
      if v.Null? then Ok((c.(value := v), false))
      else if !v.Arr? then Walk(c.(value := v, tags := c.tags + [Tag(oid[i], "", 0, 0)]), oid, i + 1, arrays)
      else if arrays + 1 > 3 || i == |oid| - 1 then Ok((c.(value := v, list := v), false))
      else match Enter(v, oid[i + 1])
        case Thrown => Thrown
        case Ok(e) =>
          if i != |c.tags| then Thrown
          else match Touch(e.list, Cell(e.elem, 0))
            case Thrown => Thrown
            case Ok(a) =>
              var walked := Cursor(
                Get(e.list, Cell(e.elem, 0)), a, e.elem, Some(i), c.tags + [Tag(oid[i], e.elem, 0, e.size)]);
              Walk(walked, oid, if e.skip then i + 2 else i + 1, arrays + 1)
  }

  /** The tag of the current array moves on by one element. */
  function Advance(c: Cursor): Cursor {
    if c.crt.Some? && c.crt.value < |c.tags| then
      var t := c.tags[c.crt.value];
      c.(tags := c.tags[c.crt.value := t.(index := t.index + 1)])
    else c
  }

  function Start(root: Json): Cursor {
    Cursor(root, Null, "", None, [])
  }

  function First(root: Json, oid: seq<string>): (Fetch, Cursor) {
    match Walk(Start(root), oid, 0, 0)
    case Thrown => (Failed, Start(root))
    case Ok((c, ended)) => if ended && !c.value.Null? then (TextOf(c.value), Advance(c)) else (Nothing, c)
  }

  function Next(c: Cursor): (Fetch, Cursor) {
    if c.value.Null? || !c.list.Arr? then (Nothing, c)
    else if c.crt.None? || c.crt.value >= |c.tags| then (Failed, c)
    else
      var t := c.tags[c.crt.value];
      if t.index >= t.size then (Nothing, c)
      else match Touch(c.list, Cell(c.elem, t.index))
        case Thrown => (Failed, c)
        case Ok(a) =>
          var v := Get(c.list, Cell(c.elem, t.index));
          var moved := c.(value := v, list := a);
          if v.Null? then (Nothing, moved) else (TextOf(v), Advance(moved))
  }

  /** The call number `m` of a client that asks for `oid` first and then for the next element. */
  function Call(root: Json, oid: seq<string>, m: nat): (Fetch, Cursor) {
    if m == 0 then First(root, oid) else Next(Call(root, oid, m - 1).1)
  }

  // ---- The parser --------------------------------------------------------------------------------------

  class Parser {
    const root: Json
    var value: Json
    var list: Json
    var elem: string
    var crt: Option<nat>
    var tags: seq<Tag>

    ghost function Model(): Cursor
      reads this
    {
      Cursor(value, list, elem, crt, tags)
    }

    constructor (root: Json)
      ensures this.root == root && Model() == Start(root)
    {
      this.root := root;
      value, list, elem, crt, tags := root, Null, "", None, [];
    }

    /** GetFirstElementFromOid. After an exception the fields are of no use, otherwise they are those
        of the specification. */
    method GetFirst(oid: string) returns (r: Fetch)
      modifies this
      ensures r == First(root, JsonWriter.SplitOid(oid)).0
      ensures r != Failed ==> Model() == First(root, JsonWriter.SplitOid(oid)).1
    {
      var subs := JsonWriter.SplitOid(oid);
      value, list, elem, crt, tags := root, Null, "", None, [];
      var i, arrays, ended := 0, 0, true;
      while i < |subs|
        invariant i <= |subs|
        invariant Walk(Model(), subs, i, arrays) == Walk(Start(root), subs, 0, 0)
      {
        if !Indexable(value, Key(subs[i])) {
          return Failed;
        }
        var v := Child(value, Key(subs[i]));
        if v.Null? {
          value, ended := v, false;
          break;
        } else if v.Arr? {
          arrays := arrays + 1;
          if arrays > 3 || i == |subs| - 1 {
            value, list, ended := v, v, false;
            break;
          }
          var entered := Enter(v, subs[i + 1]);
          if entered.Thrown? || i != |tags| {
            return Failed;
          }
          var e := entered.value;
          var touched := Touch(e.list, Cell(e.elem, 0));
          if touched.Thrown? {
            return Failed;
          }
          elem, crt := e.elem, Some(|tags|);
          tags := tags + [Tag(subs[i], elem, 0, e.size)];
          value, list := Get(e.list, Cell(elem, 0)), touched.value;
          if e.skip {
            i := i + 1;
          }
        } else {
          value := v;
          tags := tags + [Tag(subs[i], "", 0, 0)];
        }
        i := i + 1;
      }
      r := Nothing;
      if ended && !value.Null? {
        r := TextOf(value);
        if crt.Some? && crt.value < |tags| {
          var t := tags[crt.value];
          tags := tags[crt.value := t.(index := t.index + 1)];
        }
      }
    }

    /** GetNextElementFromOid */
    method GetNext() returns (r: Fetch)
      modifies this
      ensures r == Next(old(Model())).0
      ensures r != Failed ==> Model() == Next(old(Model())).1
    {
      r := Nothing;
      if !value.Null? && list.Arr? {
        if crt.None? || crt.value >= |tags| {
          return Failed;
        }
        var t := tags[crt.value];
        if t.index < t.size {
          var touched := Touch(list, Cell(elem, t.index));
          if touched.Thrown? {
            return Failed;
          }
          value, list := Get(list, Cell(elem, t.index)), touched.value;
          if !value.Null? {
            tags := tags[crt.value := t.(index := t.index + 1)];
            r := TextOf(value);
          }
        }
      }
    }
  }
}
