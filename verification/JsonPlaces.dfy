/** What a path selects, by places: a place says for each step how many elements or fields stand before the one
    taken. */
module JsonPlaces {
  import opened Outcomes
  import opened JsonGrammar
  import opened JsonPath

  type Place = seq<nat>

  /** The element or the field's value that has `k` others before it. */
  function Child(v: JsonValue, k: nat): Option<JsonValue> {
    if v.Array? && k < |v.items| then Some(v.items[k])
    else if v.Object? && k < |v.fields| then Some(v.fields[k].value)
    else None
  }

  /** Whether a step takes that one: the first field of the name, the element of the index, or any element. */
  predicate Takes(step: Step, v: JsonValue, k: nat) {
    match step
    case FieldStep(name) =>
      v.Object? && k < |v.fields| && v.fields[k].key == name && forall j :: 0 <= j < k ==> v.fields[j].key != name
    case IndexStep(index) => v.Array? && k < |v.items| && k == index
    case WildcardStep => v.Array? && k < |v.items|
  }

  predicate Fits(steps: seq<Step>, v: JsonValue, place: Place) {
    |place| == |steps|
    && (steps != [] ==> Takes(steps[0], v, place[0]) && Fits(steps[1..], Child(v, place[0]).value, place[1..]))
  }

  /** The value at a place. */
  function At(v: JsonValue, place: Place): Option<JsonValue> {
    if place == [] then Some(v)
    else
      match Child(v, place[0])
      case None => None
      case Some(child) => At(child, place[1..])
  }

  /** Whether a place comes before another one in the document. */
  predicate Before(p: Place, q: Place) {
    p != [] && q != [] && (p[0] < q[0] || (p[0] == q[0] && Before(p[1..], q[1..])))
  }

  ghost predicate InOrder(places: seq<Place>) {
    forall i, j :: 0 <= i < j < |places| ==> Before(places[i], places[j])
  }

  /** The values are those at the places. */
  ghost predicate ValuesAt(v: JsonValue, places: seq<Place>, found: seq<JsonValue>) {
    |places| == |found| && forall i :: 0 <= i < |places| ==> At(v, places[i]) == Some(found[i])
  }

  /** The places are those that fit. */
  ghost predicate AllPlaces(steps: seq<Step>, v: JsonValue, places: seq<Place>) {
    forall p :: p in places <==> Fits(steps, v, p)
  }

  // ----- The places of one step -----

  ghost predicate Increasing(ks: seq<nat>) {
    forall i, j :: 0 <= i < j < |ks| ==> ks[i] < ks[j]
  }

  lemma {:induction false} FieldTaken(v: JsonValue, name: string) returns (ks: seq<nat>)
    requires v.Object?
    ensures |ks| <= 1 && forall k: nat :: k in ks <==> Takes(FieldStep(name), v, k)
    ensures ks == [] ==> Named(v, name) == None
    ensures ks != [] ==> Takes(FieldStep(name), v, ks[0]) && Named(v, name) == Some(v.fields[ks[0]].value)
  {
    ks := [];
    var k := 0;
    while k < |v.fields| && v.fields[k].key != name
      invariant k <= |v.fields| && forall j :: 0 <= j < k ==> v.fields[j].key != name
    {
      k := k + 1;
    }
    if k < |v.fields| {
      ks := [k];
      NamedIs(v, name, k);
    } else {
      NamedNone(v.fields, name);
    }
  }

  lemma {:induction false} Numbers(n: nat) returns (ks: seq<nat>)
    ensures |ks| == n && forall i :: 0 <= i < n ==> ks[i] == i
  {
    ks := [];
    while |ks| < n
      invariant |ks| <= n && forall i :: 0 <= i < |ks| ==> ks[i] == i
    {
      ks := ks + [|ks|];
    }
  }

  /** The children of a step are those it takes, in order. */
  lemma {:induction false} ChildrenTaken(v: JsonValue, step: Step) returns (ks: seq<nat>)
    ensures Increasing(ks) && |ks| == |Children(v, step)|
    ensures forall k: nat :: k in ks <==> Takes(step, v, k)
    ensures forall i :: 0 <= i < |ks| ==> Child(v, ks[i]) == Some(Children(v, step)[i])
  {
    ks := [];
    match step
    case FieldStep(name) =>
      if v.Object? { ks := FieldTaken(v, name); }
    case IndexStep(index) =>
      if v.Array? && index < |v.items| { ks := [index]; }
    case WildcardStep =>
      if v.Array? {
        ks := Numbers(|v.items|);
        forall k: nat | k < |v.items| ensures k in ks {
          assert ks[k] == k;
        }
        forall k: nat | k in ks ensures k < |v.items| {
          var i :| 0 <= i < |ks| && ks[i] == k;
        }
      }
  }

  // ----- The places of a path -----

  function Prefixed(k: nat, places: seq<Place>): (r: seq<Place>)
    ensures |r| == |places|
  {
    if places == [] then [] else [[k] + places[0]] + Prefixed(k, places[1..])
  }

  lemma {:induction false} PrefixedAt(k: nat, places: seq<Place>, i: nat)
    requires i < |places|
    ensures Prefixed(k, places)[i] == [k] + places[i]
  {
    if i > 0 { PrefixedAt(k, places[1..], i - 1); }
  }

  lemma {:induction false} PlaceBelow(steps: seq<Step>, v: JsonValue, k: nat, p: Place)
    requires steps != [] && Takes(steps[0], v, k)
    ensures Fits(steps, v, [k] + p) <==> Fits(steps[1..], Child(v, k).value, p)
    ensures At(v, [k] + p) == At(Child(v, k).value, p)
  {
    assert ([k] + p)[1..] == p;
  }

  lemma {:induction false} BeforeBelow(k: nat, p: Place, q: Place)
    ensures Before([k] + p, [k] + q) <==> Before(p, q)
  {
    assert ([k] + p)[1..] == p && ([k] + q)[1..] == q;
  }

  /** The places below one child. */
  ghost predicate Below(steps: seq<Step>, v: JsonValue, ks: seq<nat>, places: seq<Place>) {
    forall p :: p in places <==> Fits(steps, v, p) && p != [] && p[0] in ks
  }

  lemma {:induction false} PlacesBelowOne(steps: seq<Step>, v: JsonValue, k: nat, inner: seq<Place>,
                                          found: seq<JsonValue>)
    requires steps != [] && Takes(steps[0], v, k)
    requires var child := Child(v, k).value;
             AllPlaces(steps[1..], child, inner) && ValuesAt(child, inner, found) && InOrder(inner)
    ensures Below(steps, v, [k], Prefixed(k, inner)) && ValuesAt(v, Prefixed(k, inner), found)
    ensures InOrder(Prefixed(k, inner))
  {
    var places := Prefixed(k, inner);
    forall i | 0 <= i < |places| ensures places[i] == [k] + inner[i] && At(v, places[i]) == Some(found[i]) {
      PrefixedAt(k, inner, i);
      PlaceBelow(steps, v, k, inner[i]);
    }
    forall i, j | 0 <= i < j < |places| ensures Before(places[i], places[j]) {
      BeforeBelow(k, inner[i], inner[j]);
    }
    forall p ensures p in places <==> Fits(steps, v, p) && p != [] && p[0] in [k] {
      if p in places {
        var i :| 0 <= i < |places| && places[i] == p;
        assert inner[i] in inner;
        PlaceBelow(steps, v, k, inner[i]);
      }
      if Fits(steps, v, p) && p != [] && p[0] in [k] {
        assert p == [k] + p[1..];
        PlaceBelow(steps, v, k, p[1..]);
        var i :| 0 <= i < |inner| && inner[i] == p[1..];
        assert places[i] == p;
      }
    }
  }

  lemma {:induction false} OrderedJoin(k: nat, ks: seq<nat>, first: seq<Place>, rest: seq<Place>)
    requires InOrder(first) && InOrder(rest) && forall x :: x in ks ==> k < x
    requires forall p :: p in first ==> p != [] && p[0] == k
    requires forall p :: p in rest ==> p != [] && p[0] in ks
    ensures InOrder(first + rest)
  {
    var both := first + rest;
    forall i, j | 0 <= i < j < |both| ensures Before(both[i], both[j]) {
      if j < |first| {
        assert both[i] == first[i] && both[j] == first[j];
      } else if i >= |first| {
        assert both[i] == rest[i - |first|] && both[j] == rest[j - |first|];
      } else {
        assert first[i] in first && rest[j - |first|] in rest;
      }
    }
  }

  lemma {:induction false} PlacesBelow(steps: seq<Step>, v: JsonValue, ks: seq<nat>, children: seq<JsonValue>)
    returns (places: seq<Place>)
    requires steps != [] && |ks| == |children| && Increasing(ks)
    requires forall i :: 0 <= i < |ks| ==> Takes(steps[0], v, ks[i]) && Child(v, ks[i]) == Some(children[i])
    ensures Below(steps, v, ks, places) && ValuesAt(v, places, SelectedBelow(children, steps[1..])) && InOrder(places)
    decreases |steps|, 0, |ks|
  {
    places := [];
    if ks != [] {
      var inner := PlacesOf(steps[1..], children[0]);
      PlacesBelowOne(steps, v, ks[0], inner, Selected(children[0], steps[1..]));
      var rest := PlacesBelow(steps, v, ks[1..], children[1..]);
      var first := Prefixed(ks[0], inner);
      places := first + rest;
      forall p ensures p in places <==> Fits(steps, v, p) && p != [] && p[0] in ks {
        assert ks == [ks[0]] + ks[1..];
      }
      OrderedJoin(ks[0], ks[1..], first, rest);
    }
  }

  /** A path selects the values at the places that fit its steps: each once, all of them, and in the order of the
      document. */
  lemma {:induction false} PlacesOf(steps: seq<Step>, v: JsonValue) returns (places: seq<Place>)
    ensures AllPlaces(steps, v, places) && ValuesAt(v, places, Selected(v, steps)) && InOrder(places)
    decreases |steps|, 1, 0
  {
    if steps == [] {
      places := [[]];
    } else {
      var ks := ChildrenTaken(v, steps[0]);
      assert forall i :: 0 <= i < |ks| ==> ks[i] in ks;
      places := PlacesBelow(steps, v, ks, Children(v, steps[0]));
    }
  }
}
