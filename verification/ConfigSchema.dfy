/** The typed configuration: a document is checked, decoded over the defaults and
    written back, which adds every member it lacks and drops the members that are
    omitted when empty. */
module ConfigSchema {
  import opened Basics
  import opened Json
  import opened ConfigMerge

  /** What one place of the document may hold. `read` checks a value and gives the
      value written back for it. A leaf without a default is required. A table is
      decoded entry by entry over its defaults. */
  datatype Shape =
    | Leaf(read: Value -> Option<Value>, default: Option<Value>, omitEmpty: bool)
    | Table(ok: (string, Value) -> bool, defaults: map<string, Value>)
    | Struct(members: map<string, Shape>)

  type Schema = s: Shape | s.Struct? witness Struct(map[])

  /** What a place holds in the document written back. */
  datatype Field = Refused | Omitted | Kept(value: Value)

  function Written(f: Field): Option<Value> { if f.Kept? then Some(f.value) else None }

  function Given(fields: map<string, Value>, k: string): Option<Value> {
    if k in fields then Some(fields[k]) else None
  }

  const EMPTY: Value := Str("")

  /** Parse and MarshalIndent, for the place `s` of a document holding `v`. */
  function Rewrite(s: Shape, v: Option<Value>): (f: Field)
    ensures s.Struct? && f.Kept? ==> f.value.Obj?
  {
    match s
    case Leaf(read, default, omitEmpty) =>
      var x := if v.Some? then read(v.value) else default;
      if x.None? then Refused else if omitEmpty && x.value == EMPTY then Omitted else Kept(x.value)
    case Table(ok, defaults) =>
      if v.None? then Kept(Obj(defaults))
      else if v.value.Obj? && forall k <- v.value.fields :: ok(k, v.value.fields[k]) then
        Kept(Obj(defaults + v.value.fields))
      else Refused
    case Struct(members) =>
      if v.Some? && !v.value.Obj? then Refused
      else
        var fields := if v.Some? then v.value.fields else map[];
        if fields.Keys <= members.Keys && forall k <- members :: !Rewrite(members[k], Given(fields, k)).Refused? then
          Kept(Obj(map k | k in members && Rewrite(members[k], Given(fields, k)).Kept? ::
                     Rewrite(members[k], Given(fields, k)).value))
        else Refused
  }

  /** Reading again what was written changes nothing, defaults can be read, what is
      omitted is the default, and objects are tables where the release owns them. */
  ghost predicate Sound(s: Shape) {
    match s
    case Leaf(read, default, omitEmpty) =>
      && (forall w | read(w).Some? :: !w.Obj? && read(read(w).value) == read(w))
      && (omitEmpty ==> default.Some? && (default.value == EMPTY || forall w :: read(w) != Some(EMPTY)))
      && (default.Some? && !(omitEmpty && default.value == EMPTY) ==> read(default.value) == default)
    case Table(ok, defaults) => (forall k <- defaults :: ok(k, defaults[k])) && forall k, v | ok(k, v) :: !v.Obj?
    case Struct(members) => forall k <- members :: Sound(members[k]) && (k in OWNED ==> !members[k].Struct?)
  }

  predicate Valid(s: Schema, d: Doc) { Rewrite(s, Some(d)).Kept? }

  /** What is written back is accepted and written back unchanged. */
  lemma {:induction false} RewriteIsStable(s: Shape, v: Option<Value>)
    requires Sound(s) && !Rewrite(s, v).Refused?
    ensures Rewrite(s, Written(Rewrite(s, v))) == Rewrite(s, v)
  {
    match s
    case Leaf(read, default, omitEmpty) =>
    case Table(ok, defaults) =>
      var fields := if v.Some? then v.value.fields else map[];
      assert defaults + (defaults + fields) == defaults + fields;
    case Struct(members) =>
      var fields := if v.Some? then v.value.fields else map[];
      var again := Rewrite(s, v).value.fields;
      forall k | k in members
        ensures Given(again, k) == Written(Rewrite(members[k], Given(fields, k)))
        ensures Rewrite(members[k], Given(again, k)) == Rewrite(members[k], Given(fields, k))
      {
        RewriteIsStable(members[k], Given(fields, k));
      }
      assert Rewrite(s, Some(Obj(again))).value.fields == again;
  }

  // ----- places -----

  /** The value at the end of a key path. */
  function At(v: Value, p: Path): Option<Value> {
    if |p| == 0 then Some(v)
    else if v.Obj? && p[0] in v.fields then At(v.fields[p[0]], p[1..])
    else None
  }

  function Reach(v: Option<Value>, p: Path): Option<Value> { if v.Some? then At(v.value, p) else None }

  function ShapeAt(s: Shape, p: Path): Option<Shape> {
    if |p| == 0 then Some(s)
    else if s.Struct? && p[0] in s.members then ShapeAt(s.members[p[0]], p[1..])
    else None
  }

  ghost predicate LeafAt(s: Shape, p: Path) { ShapeAt(s, p).Some? && ShapeAt(s, p).value.Leaf? }

  lemma {:induction false} SoundAt(s: Shape, p: Path)
    requires Sound(s) && ShapeAt(s, p).Some?
    ensures Sound(ShapeAt(s, p).value)
    decreases |p|
  {
    if |p| > 0 { SoundAt(s.members[p[0]], p[1..]); }
  }

  /** Each place is written back on its own. */
  lemma {:induction false} RewriteAt(s: Shape, v: Option<Value>, p: Path)
    requires !Rewrite(s, v).Refused? && ShapeAt(s, p).Some?
    ensures !Rewrite(ShapeAt(s, p).value, Reach(v, p)).Refused?
    ensures Reach(Written(Rewrite(s, v)), p) == Written(Rewrite(ShapeAt(s, p).value, Reach(v, p)))
    decreases |p|
  {
    if |p| > 0 {
      var fields := if v.Some? then v.value.fields else map[];
      RewriteAt(s.members[p[0]], Given(fields, p[0]), p[1..]);
      assert Reach(v, p) == Reach(Given(fields, p[0]), p[1..]);
    }
  }

  /** A place the schema knows: a member at every step, and at the end perhaps an entry
      of a table. */
  predicate Known(s: Shape, p: Path) {
    || |p| == 0
    || (s.Struct? && p[0] in s.members && Known(s.members[p[0]], p[1..]))
    || (s.Table? && |p| == 1)
  }

  /** A document with anything in a place the schema does not know is refused. */
  lemma {:induction false} OnlyKnownPlaces(s: Shape, v: Option<Value>, p: Path)
    requires Sound(s) && !Rewrite(s, v).Refused? && Reach(v, p).Some?
    ensures Known(s, p)
    decreases |p|
  {
    if |p| > 0 {
      match s
      case Leaf(read, _, _) =>
      case Table(ok, _) =>
        assert ok(p[0], v.value.fields[p[0]]) && At(v.value.fields[p[0]], p[1..]).Some?;
        assert |p[1..]| == 0;
      case Struct(members) => OnlyKnownPlaces(members[p[0]], Given(v.value.fields, p[0]), p[1..]);
    }
  }
}
