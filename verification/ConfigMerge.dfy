/** The merge of a release's launcher configuration with the installed one. */
module ConfigMerge {
  import opened Basics
  import opened Json
  import opened Order

  /** Keys whose value is the release's when the release declares them. They
      count at every depth. */
  const OWNED := {"release", "game_id", "game_name", "mime_types", "locales", "schema"}

  type Doc = v: Value | v.Obj? witness Obj(map[])

  /** Both documents have an object under `k` and the release does not own it. */
  predicate Shared(l: Doc, r: Doc, k: string) {
    !(k in OWNED && k in r.fields) && k in l.fields && k in r.fields && l.fields[k].Obj? && r.fields[k].Obj?
  }

  function Merge(l: Doc, r: Doc): (m: Doc)
    ensures m.fields.Keys == l.fields.Keys + r.fields.Keys
    decreases l, 1
  {
    Obj(map k | k in l.fields.Keys + r.fields.Keys :: MergeAt(l, r, k))
  }

  function MergeAt(l: Doc, r: Doc, k: string): Value
    requires k in l.fields || k in r.fields
    decreases l, 0
  {
    if k in OWNED && k in r.fields then r.fields[k]
    else if Shared(l, r, k) then match l case Obj(fields) => Merge(fields[k], r.fields[k])
    else if k in l.fields then l.fields[k]
    else r.fields[k]
  }

  // ----- where each part came from -----

  type Path = seq<string>

  /** The key paths taken from each side, as the event log lists them. */
  datatype Origins = Origins(local: seq<Path>, release: seq<Path>)

  function Under(k: string, paths: seq<Path>): (r: seq<Path>)
    ensures |r| == |paths| && forall i | 0 <= i < |r| :: r[i] == [k] + paths[i]
  {
    if |paths| == 0 then [] else [[k] + paths[0]] + Under(k, paths[1..])
  }

  function Both(a: Origins, b: Origins): Origins { Origins(a.local + b.local, a.release + b.release) }

  ghost function OriginsOf(l: Doc, r: Doc): Origins
    decreases l, 2, 0
  {
    OriginsOver(l, r, Sorted(l.fields.Keys + r.fields.Keys))
  }

  ghost function OriginsOver(l: Doc, r: Doc, keys: seq<string>): Origins
    requires forall k <- keys :: k in l.fields || k in r.fields
    decreases l, 1, |keys|
  {
    if |keys| == 0 then Origins([], [])
    else assert keys[0] in keys; Both(OriginAt(l, r, keys[0]), OriginsOver(l, r, keys[1..]))
  }

  ghost function OriginAt(l: Doc, r: Doc, k: string): Origins
    requires k in l.fields || k in r.fields
    decreases l, 0, 0
  {
    if k in OWNED && k in r.fields then Origins([], [[k]])
    else if Shared(l, r, k) then match l case Obj(fields) => Nested(k, OriginsOf(fields[k], r.fields[k]))
    else if k in l.fields then Origins([[k]], [])
    else Origins([], [[k]])
  }

  /** Two empty objects leave no deeper key to name. */
  function Nested(k: string, sub: Origins): Origins {
    if |sub.local| > 0 || |sub.release| > 0 then Origins(Under(k, sub.local), Under(k, sub.release))
    else Origins([[k]], [])
  }

  // ----- the merge as it runs -----

  method PrefixKeys(k: string, paths: seq<Path>) returns (out: seq<Path>)
    ensures out == Under(k, paths)
  {
    out := [];
    for i := 0 to |paths|
      invariant out == Under(k, paths)[..i]
    {
      out := out + [[k] + paths[i]];
    }
  }

  method MergeConfigDocs(local: Doc, release: Doc) returns (merged: Doc, fromLocal: seq<Path>, fromRelease: seq<Path>)
    ensures merged == Merge(local, release)
    ensures Origins(fromLocal, fromRelease) == OriginsOf(local, release)
    decreases local, 1
  {
    var keys := SortKeys(local.fields.Keys + release.fields.Keys);
    assert AllKeys(local, release, keys);
    merged, fromLocal, fromRelease := MergeOver(local, release, keys);
  }

  ghost predicate AllKeys(l: Doc, r: Doc, keys: seq<string>) {
    forall k :: k in keys <==> k in l.fields || k in r.fields
  }

  method MergeOver(local: Doc, release: Doc, keys: seq<string>)
    returns (merged: Doc, fromLocal: seq<Path>, fromRelease: seq<Path>)
    requires AllKeys(local, release, keys)
    ensures merged == Merge(local, release)
    ensures Origins(fromLocal, fromRelease) == OriginsOver(local, release, keys)
    decreases local, 0, 1
  {
    hide SoFar;
    var fields: map<string, Value> := map[];
    fromLocal, fromRelease := [], [];
    Starts(local, release, keys);
    var i := 0;
    while i < |keys|
      invariant i <= |keys|
      invariant SoFar(local, release, keys, i, fields, Origins(fromLocal, fromRelease))
    {
      Continues(local, release, keys, i, fields, Origins(fromLocal, fromRelease));
      var v, fl, fr := MergeKey(local, release, keys[i]);
      fields := fields[keys[i] := v];
      fromLocal, fromRelease := fromLocal + fl, fromRelease + fr;
      i := i + 1;
    }
    Ends(local, release, keys, fields, Origins(fromLocal, fromRelease));
    merged := Obj(fields);
  }

  /** The keys before the `i`-th are merged and accounted for. */
  ghost predicate SoFar(l: Doc, r: Doc, keys: seq<string>, i: nat, fields: map<string, Value>, origins: Origins)
    requires AllKeys(l, r, keys) && i <= |keys|
  {
    && (forall k :: k in fields <==> k in keys[..i])
    && (forall k <- fields :: fields[k] == MergeAt(l, r, k))
    && OriginsOver(l, r, keys) == Both(origins, OriginsOver(l, r, keys[i..]))
  }

  lemma Starts(l: Doc, r: Doc, keys: seq<string>)
    requires AllKeys(l, r, keys)
    ensures SoFar(l, r, keys, 0, map[], Origins([], []))
  {
    assert keys[0..] == keys;
  }

  lemma Continues(l: Doc, r: Doc, keys: seq<string>, i: nat, fields: map<string, Value>, so: Origins)
    requires AllKeys(l, r, keys) && i < |keys| && SoFar(l, r, keys, i, fields, so)
    ensures keys[i] in l.fields || keys[i] in r.fields
    ensures SoFar(l, r, keys, i + 1, fields[keys[i] := MergeAt(l, r, keys[i])], Both(so, OriginAt(l, r, keys[i])))
  {
    hide MergeAt, OriginAt;
    assert keys[i] in keys;
    assert keys[i..][1..] == keys[i + 1..] && keys[..i + 1] == keys[..i] + [keys[i]];
  }

  lemma Ends(l: Doc, r: Doc, keys: seq<string>, fields: map<string, Value>, origins: Origins)
    requires AllKeys(l, r, keys) && SoFar(l, r, keys, |keys|, fields, origins)
    ensures Obj(fields) == Merge(l, r) && origins == OriginsOver(l, r, keys)
  {
    hide MergeAt, OriginAt;
    assert keys[..|keys|] == keys && keys[|keys|..] == [];
    assert fields == Merge(l, r).fields;
  }

  method MergeKey(local: Doc, release: Doc, k: string) returns (v: Value, fromLocal: seq<Path>, fromRelease: seq<Path>)
    requires k in local.fields || k in release.fields
    ensures v == MergeAt(local, release, k) && Origins(fromLocal, fromRelease) == OriginAt(local, release, k)
    decreases local, 0, 0
  {
    if k in OWNED && k in release.fields { return release.fields[k], [], [[k]]; }
    if Shared(local, release, k) {
      match local {
        case Obj(fields) =>
          var sub, subLocal, subRelease := MergeConfigDocs(fields[k], release.fields[k]);
          if |subLocal| > 0 || |subRelease| > 0 {
            fromLocal := PrefixKeys(k, subLocal);
            fromRelease := PrefixKeys(k, subRelease);
            return sub, fromLocal, fromRelease;
          }
          return sub, [[k]], [];
      }
    }
    if k in local.fields { return local.fields[k], [[k]], []; }
    return release.fields[k], [], [[k]];
  }

  // ----- laws of one merge -----

  lemma {:induction false} SelfMerge(d: Doc)
    ensures Merge(d, d) == d
    decreases d
  {
    match d
    case Obj(fields) =>
      forall k | k in fields ensures MergeAt(d, d, k) == fields[k] {
        if Shared(d, d, k) { SelfMerge(fields[k]); }
      }
      assert Merge(d, d).fields == fields;
  }

  /** Merging the same release again changes nothing, nor does merging the result
      into the local document. */
  lemma {:induction false} MergeIdempotent(l: Doc, r: Doc)
    ensures Merge(Merge(l, r), r) == Merge(l, r)
    ensures Merge(l, Merge(l, r)) == Merge(l, r)
    decreases l, 1
  {
    var m := Merge(l, r);
    forall k | k in m.fields ensures MergeAt(m, r, k) == m.fields[k] && MergeAt(l, m, k) == m.fields[k] {
      IdempotentAt(l, r, k);
    }
    assert Merge(m, r).fields == m.fields;
    assert Merge(l, m).fields == m.fields;
  }

  lemma {:induction false} IdempotentAt(l: Doc, r: Doc, k: string)
    requires k in l.fields || k in r.fields
    ensures var m := Merge(l, r); MergeAt(m, r, k) == m.fields[k] && MergeAt(l, m, k) == m.fields[k]
    decreases l, 0
  {
    var m := Merge(l, r);
    assert m.fields[k] == MergeAt(l, r, k);
    if k in OWNED && k in r.fields {
    } else if Shared(l, r, k) {
      match l {
        case Obj(fields) =>
          MergeIdempotent(fields[k], r.fields[k]);
          assert m.fields[k] == Merge(fields[k], r.fields[k]);
          assert Shared(m, r, k) && MergeAt(m, r, k) == Merge(m.fields[k], r.fields[k]);
      }
    } else if m.fields[k].Obj? {
      SelfMerge(m.fields[k]);
    }
  }
}
