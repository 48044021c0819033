/** Where each part of one merge came from. */
module ConfigOrigins {
  import opened Basics
  import opened Json
  import opened Order
  import opened ConfigMerge
  import opened ConfigSchema

  predicate Unowned(p: Path) { forall k <- p :: k !in OWNED }

  lemma MergedKey(l: Doc, r: Doc, k: string)
    requires k in l.fields || k in r.fields
    ensures Merge(l, r).fields[k] == MergeAt(l, r, k)
  {}

  /** Where both sides have objects, the objects themselves are merged: their key
      sets unite at every merged level. */
  lemma {:induction false} MergesAtEveryLevel(l: Doc, r: Doc, p: Path)
    requires Unowned(p) && At(l, p).Some? && At(l, p).value.Obj? && At(r, p).Some? && At(r, p).value.Obj?
    ensures At(Merge(l, r), p) == Some(Merge(At(l, p).value, At(r, p).value))
    ensures At(Merge(l, r), p).value.fields.Keys == At(l, p).value.fields.Keys + At(r, p).value.fields.Keys
    decreases |p|
  {
    if |p| > 0 {
      MergedKey(l, r, p[0]);
      assert Unowned(p[1..]);
      assert l.fields[p[0]].Obj? && r.fields[p[0]].Obj?;
      MergesAtEveryLevel(l.fields[p[0]], r.fields[p[0]], p[1..]);
    }
  }

  predicate TrueOrigins(o: Origins, l: Value, r: Value, m: Value) {
    && (forall p <- o.local :: |p| > 0 && At(m, p).Some? && At(m, p) == At(l, p))
    && (forall p <- o.release :: |p| > 0 && At(m, p).Some? && At(m, p) == At(r, p))
  }

  lemma UnderMembers(k: string, paths: seq<Path>)
    ensures forall p <- Under(k, paths) :: |p| > 0 && p[0] == k && p[1..] in paths
    ensures forall q <- paths :: [k] + q in Under(k, paths)
  {
    forall p <- Under(k, paths) ensures |p| > 0 && p[0] == k && p[1..] in paths {
      var i :| 0 <= i < |paths| && Under(k, paths)[i] == p;
      assert p[1..] == paths[i];
    }
    forall q <- paths ensures [k] + q in Under(k, paths) {
      var i :| 0 <= i < |paths| && paths[i] == q;
      assert Under(k, paths)[i] == [k] + q;
    }
  }

  /** Every path the log names from one side is in the result as that side had it. */
  lemma {:induction false} OriginsAreTrue(l: Doc, r: Doc)
    ensures TrueOrigins(OriginsOf(l, r), l, r, Merge(l, r))
    decreases l, 2, 0
  {
    OriginsOverTrue(l, r, Sorted(l.fields.Keys + r.fields.Keys));
  }

  lemma {:induction false} OriginsOverTrue(l: Doc, r: Doc, keys: seq<string>)
    requires forall k <- keys :: k in l.fields || k in r.fields
    ensures TrueOrigins(OriginsOver(l, r, keys), l, r, Merge(l, r))
    decreases l, 1, |keys|
  {
    if |keys| > 0 {
      assert keys[0] in keys;
      OriginAtTrue(l, r, keys[0]);
      OriginsOverTrue(l, r, keys[1..]);
    }
  }

  lemma {:induction false} OriginAtTrue(l: Doc, r: Doc, k: string)
    requires k in l.fields || k in r.fields
    ensures TrueOrigins(OriginAt(l, r, k), l, r, Merge(l, r))
    decreases l, 0, 0
  {
    var m := Merge(l, r);
    MergedKey(l, r, k);
    assert [k][1..] == [];
    if Shared(l, r, k) {
      match l
      case Obj(fields) =>
        var sub := OriginsOf(fields[k], r.fields[k]);
        OriginsAreTrue(fields[k], r.fields[k]);
        if sub == Origins([], []) { NoOriginsMeansEmpty(fields[k], r.fields[k]); }
        NestedTrue(l, r, m, k, sub);
    }
  }

  lemma NestedTrue(l: Doc, r: Doc, m: Doc, k: string, sub: Origins)
    requires k in l.fields && k in r.fields && k in m.fields
    requires TrueOrigins(sub, l.fields[k], r.fields[k], m.fields[k])
    requires sub == Origins([], []) ==> m.fields[k] == l.fields[k]
    ensures TrueOrigins(Nested(k, sub), l, r, m)
  {
    assert [k][1..] == [];
    UnderMembers(k, sub.local);
    UnderMembers(k, sub.release);
  }

  lemma NoOriginsMeansEmpty(l: Doc, r: Doc)
    requires OriginsOf(l, r) == Origins([], [])
    ensures l == Obj(map[]) && r == Obj(map[])
  {
    var keys := Sorted(l.fields.Keys + r.fields.Keys);
    if |keys| > 0 {
      assert keys[0] in keys;
      OriginAtNames(l, r, keys[0]);
    }
    assert forall k <- l.fields :: k in keys;
    assert forall k <- r.fields :: k in keys;
    assert l.fields == map[] && r.fields == map[];
  }

  lemma OriginAtNames(l: Doc, r: Doc, k: string)
    requires k in l.fields || k in r.fields
    ensures |OriginAt(l, r, k).local| + |OriginAt(l, r, k).release| > 0
  {}

  /** Some prefix of the path is named. */
  ghost predicate Covered(o: Origins, p: Path) {
    exists n | 0 <= n <= |p| :: p[..n] in o.local || p[..n] in o.release
  }

  /** Every value in the result is accounted for. */
  lemma {:induction false} OriginsAreComplete(l: Doc, r: Doc, p: Path)
    requires At(Merge(l, r), p).Some? && !At(Merge(l, r), p).value.Obj?
    ensures Covered(OriginsOf(l, r), p)
    decreases |p|, 1
  {
    var keys := Sorted(l.fields.Keys + r.fields.Keys);
    assert p[0] in keys;
    OneCovered(l, r, p);
    CoveredOver(l, r, keys, p);
  }

  lemma {:induction false} CoveredOver(l: Doc, r: Doc, keys: seq<string>, p: Path)
    requires (forall k <- keys :: k in l.fields || k in r.fields) && |p| > 0 && p[0] in keys
    requires Covered(OriginAt(l, r, p[0]), p)
    ensures Covered(OriginsOver(l, r, keys), p)
    decreases |keys|
  {
    assert keys[0] in keys;
    if keys[0] == p[0] {
      var n :| 0 <= n <= |p| && (p[..n] in OriginAt(l, r, p[0]).local || p[..n] in OriginAt(l, r, p[0]).release);
      assert p[..n] in OriginsOver(l, r, keys).local || p[..n] in OriginsOver(l, r, keys).release;
    } else {
      assert p[0] in keys[1..];
      CoveredOver(l, r, keys[1..], p);
      var o := OriginsOver(l, r, keys[1..]);
      var n :| 0 <= n <= |p| && (p[..n] in o.local || p[..n] in o.release);
      assert p[..n] in OriginsOver(l, r, keys).local || p[..n] in OriginsOver(l, r, keys).release;
    }
  }

  lemma {:induction false} OneCovered(l: Doc, r: Doc, p: Path)
    requires |p| > 0 && (p[0] in l.fields || p[0] in r.fields)
    requires At(Merge(l, r), p).Some? && !At(Merge(l, r), p).value.Obj?
    ensures Covered(OriginAt(l, r, p[0]), p)
    decreases |p|, 0
  {
    var k, o := p[0], OriginAt(l, r, p[0]);
    MergedKey(l, r, k);
    assert p[..1] == [k];
    if Shared(l, r, k) {
      match l
      case Obj(fields) =>
        var sub := OriginsOf(fields[k], r.fields[k]);
        OriginsAreComplete(fields[k], r.fields[k], p[1..]);
        NestedCovers(k, sub, p);
    }
  }

  lemma NestedCovers(k: string, sub: Origins, p: Path)
    requires |p| > 0 && p[0] == k && Covered(sub, p[1..])
    ensures Covered(Nested(k, sub), p)
  {
    hide Under;
    var q := p[1..];
    var n :| 0 <= n <= |q| && (q[..n] in sub.local || q[..n] in sub.release);
    UnderMembers(k, sub.local);
    UnderMembers(k, sub.release);
    assert p[..n + 1] == [k] + q[..n];
    var o := Nested(k, sub);
    assert p[..n + 1] in o.local || p[..n + 1] in o.release;
  }
}
