/**
  removeEmpty (src/services/utils.service.ts): prunes a JSON-like value before it is
  stored. An object is its own enumerable entries in order (keys distinct, as
  Object.entries gives them); anything `typeof` calls "object" that is not an array,
  such as a Date, is an object here with the entries it has.
*/
module JsonClean {

  datatype Primitive = Bool(b: bool) | Number(n: int) | Str(s: string)

  datatype Json =
    | Undefined
    | Null
    | Prim(p: Primitive)
    | Arr(items: seq<Json>)
    | Obj(entries: seq<(string, Json)>)

  predicate Nullish(v: Json) { v.Undefined? || v.Null? }

  /** The object reducer's test: a cleaned value is kept unless it is nullish, an empty
      array or an object without keys. */
  predicate Kept(v: Json) {
    !Nullish(v) && v != Arr([]) && v != Obj([])
  }

  /** `.filter(item => item !== null && item !== undefined)` */
  function DropNullish(s: seq<Json>): (r: seq<Json>)
    ensures |r| <= |s|
    ensures forall i :: 0 <= i < |r| ==> !Nullish(r[i])
    ensures forall x :: x in r ==> x in s
  {
    if s == [] then [] else (if Nullish(s[0]) then [] else [s[0]]) + DropNullish(s[1..])
  }

  /** The reduce over the cleaned entries: keep the entries whose value passes Kept. */
  function KeepEntries(s: seq<(string, Json)>): (r: seq<(string, Json)>)
    ensures |r| <= |s|
    ensures forall i :: 0 <= i < |r| ==> Kept(r[i].1)
    ensures forall e :: e in r ==> e in s
  {
    if s == [] then [] else (if Kept(s[0].1) then [s[0]] else []) + KeepEntries(s[1..])
  }

  function RemoveEmpty(v: Json): (r: Json)
    ensures v.Undefined? || v.Null? || v.Prim? ==> r == v
    ensures v.Arr? ==> r.Undefined? || (r.Arr? && |r.items| > 0)
    ensures v.Obj? ==> r.Obj?
    decreases v
  {
    match v
    case Arr(items) =>
      var f := DropNullish(seq(|items|, i requires 0 <= i < |items| => RemoveEmpty(items[i])));
      if f == [] then Undefined else Arr(f)
    case Obj(entries) =>
      Obj(KeepEntries(seq(|entries|, i requires 0 <= i < |entries| => (entries[i].0, RemoveEmpty(entries[i].1)))))
    case _ => v
  }

  /** A value removeEmpty has nothing left to remove from: arrays are non-empty with no
      nullish element, object values all pass Kept, and all the way down. */
  predicate Clean(v: Json)
    decreases v
  {
    match v
    case Arr(items) =>
      |items| > 0 && forall i :: 0 <= i < |items| ==> !Nullish(items[i]) && Clean(items[i])
    case Obj(entries) =>
      forall i :: 0 <= i < |entries| ==> Kept(entries[i].1) && Clean(entries[i].1)
    case _ => true
  }

  // Properties

  lemma {:induction false} DropNullishNone(s: seq<Json>)
    requires forall i :: 0 <= i < |s| ==> !Nullish(s[i])
    ensures DropNullish(s) == s
    decreases |s|
  {
    if s != [] {
      DropNullishNone(s[1..]);
    }
  }

  lemma {:induction false} KeepEntriesAll(s: seq<(string, Json)>)
    requires forall i :: 0 <= i < |s| ==> Kept(s[i].1)
    ensures KeepEntries(s) == s
    decreases |s|
  {
    if s != [] {
      KeepEntriesAll(s[1..]);
    }
  }

  lemma {:induction false} DropAllNullish(s: seq<Json>)
    requires forall i :: 0 <= i < |s| ==> Nullish(s[i])
    ensures DropNullish(s) == []
    decreases |s|
  {
    if s != [] {
      DropAllNullish(s[1..]);
    }
  }

  lemma {:induction false} KeepNone(s: seq<(string, Json)>)
    requires forall i :: 0 <= i < |s| ==> !Kept(s[i].1)
    ensures KeepEntries(s) == []
    decreases |s|
  {
    if s != [] {
      KeepNone(s[1..]);
    }
  }

  /** Dropping keeps the order of what remains. */
  lemma {:induction false} DropNullishAppend(s: seq<Json>, t: seq<Json>)
    ensures DropNullish(s + t) == DropNullish(s) + DropNullish(t)
    decreases |s|
  {
    if s == [] {
      assert s + t == t;
    } else {
      assert (s + t)[0] == s[0];
      assert (s + t)[1..] == s[1..] + t;
      DropNullishAppend(s[1..], t);
    }
  }

  lemma {:induction false} KeepEntriesAppend(s: seq<(string, Json)>, t: seq<(string, Json)>)
    ensures KeepEntries(s + t) == KeepEntries(s) + KeepEntries(t)
    decreases |s|
  {
    if s == [] {
      assert s + t == t;
    } else {
      assert (s + t)[0] == s[0];
      assert (s + t)[1..] == s[1..] + t;
      KeepEntriesAppend(s[1..], t);
    }
  }

  /** What removeEmpty returns is clean. */
  lemma {:induction false} RemoveEmptyClean(v: Json)
    ensures Clean(RemoveEmpty(v))
    decreases v
  {
    match v
    case Arr(items) =>
      var m := seq(|items|, i requires 0 <= i < |items| => RemoveEmpty(items[i]));
      forall i | 0 <= i < |items|
        ensures Clean(m[i])
      {
        RemoveEmptyClean(items[i]);
      }
      var f := DropNullish(m);
      forall i | 0 <= i < |f|
        ensures Clean(f[i])
      {
        assert f[i] in m;
      }
    case Obj(entries) =>
      var m := seq(|entries|, i requires 0 <= i < |entries| => (entries[i].0, RemoveEmpty(entries[i].1)));
      forall i | 0 <= i < |entries|
        ensures Clean(m[i].1)
      {
        RemoveEmptyClean(entries[i].1);
      }
      var f := KeepEntries(m);
      forall i | 0 <= i < |f|
        ensures Clean(f[i].1)
      {
        assert f[i] in m;
      }
    case _ =>
  }

  /** removeEmpty leaves a clean value as it is. */
  lemma {:induction false} RemoveEmptyOfClean(v: Json)
    requires Clean(v)
    ensures RemoveEmpty(v) == v
    decreases v
  {
    match v
    case Arr(items) =>
      var m := seq(|items|, i requires 0 <= i < |items| => RemoveEmpty(items[i]));
      forall i | 0 <= i < |items|
        ensures m[i] == items[i]
      {
        RemoveEmptyOfClean(items[i]);
      }
      assert m == items;
      DropNullishNone(items);
    case Obj(entries) =>
      var m := seq(|entries|, i requires 0 <= i < |entries| => (entries[i].0, RemoveEmpty(entries[i].1)));
      forall i | 0 <= i < |entries|
        ensures m[i] == entries[i]
      {
        RemoveEmptyOfClean(entries[i].1);
      }
      assert m == entries;
      KeepEntriesAll(entries);
    case _ =>
  }

  /** Cleaning twice is cleaning once. */
  lemma RemoveEmptyIdempotent(v: Json)
    ensures RemoveEmpty(RemoveEmpty(v)) == RemoveEmpty(v)
  {
    RemoveEmptyClean(v);
    RemoveEmptyOfClean(RemoveEmpty(v));
  }

  /** An array whose every element cleans to nullish, the empty array among them, becomes
      undefined. */
  lemma ArrayOfNothing(items: seq<Json>)
    requires forall i :: 0 <= i < |items| ==> Nullish(RemoveEmpty(items[i]))
    ensures RemoveEmpty(Arr(items)) == Undefined
  {
    var m := seq(|items|, i requires 0 <= i < |items| => RemoveEmpty(items[i]));
    DropAllNullish(m);
  }

  /** An object whose every value is dropped becomes {}, not undefined: only nested objects
      without keys disappear, as entries of their parent. */
  lemma ObjectOfNothing(entries: seq<(string, Json)>)
    requires forall i :: 0 <= i < |entries| ==> !Kept(RemoveEmpty(entries[i].1))
    ensures RemoveEmpty(Obj(entries)) == Obj([])
    ensures RemoveEmpty(Obj([("k", Obj(entries))])) == Obj([])
  {
    var m := seq(|entries|, i requires 0 <= i < |entries| => (entries[i].0, RemoveEmpty(entries[i].1)));
    KeepNone(m);
    var outer := [("k", Obj(entries))];
    var mo := seq(|outer|, i requires 0 <= i < |outer| => (outer[i].0, RemoveEmpty(outer[i].1)));
    assert mo == [("k", Obj([]))];
  }

  /** An array keeps the cleaned elements that are not nullish, in their order. */
  lemma ArrayKeepsOrder(x: Json, y: Json)
    requires !Nullish(RemoveEmpty(x)) && !Nullish(RemoveEmpty(y))
    ensures RemoveEmpty(Arr([x, Null, y])) == Arr([RemoveEmpty(x), RemoveEmpty(y)])
  {
    var items := [x, Null, y];
    var m := seq(|items|, i requires 0 <= i < |items| => RemoveEmpty(items[i]));
    assert m == [RemoveEmpty(x)] + [Null] + [RemoveEmpty(y)];
    DropNullishAppend([RemoveEmpty(x)] + [Null], [RemoveEmpty(y)]);
    DropNullishAppend([RemoveEmpty(x)], [Null]);
  }

  /** Object values are cleaned in place: an empty array inside an object is dropped,
      while inside an array an emptied object stays. */
  lemma NestedEmpties()
    ensures RemoveEmpty(Obj([("a", Arr([])), ("b", Prim(Number(1)))])) == Obj([("b", Prim(Number(1)))])
    ensures RemoveEmpty(Arr([Obj([("a", Null)])])) == Arr([Obj([])])
  {
    var e := [("a", Arr([])), ("b", Prim(Number(1)))];
    var m := seq(|e|, i requires 0 <= i < |e| => (e[i].0, RemoveEmpty(e[i].1)));
    assert m == [("a", Undefined), ("b", Prim(Number(1)))];
    assert m[1..] == [("b", Prim(Number(1)))];
    assert KeepEntries(m[1..]) == [("b", Prim(Number(1)))];
    var inner := [("a", Null)];
    var mi := seq(|inner|, i requires 0 <= i < |inner| => (inner[i].0, RemoveEmpty(inner[i].1)));
    assert mi == [("a", Null)];
    var items := [Obj(inner)];
    var ma := seq(|items|, i requires 0 <= i < |items| => RemoveEmpty(items[i]));
    assert ma == [Obj([])];
  }
}
