/** Column labels of a headerless file: A, ..., Z, AA, AB, ... (bijective base 26). */
module SyntheticLabels {

  function Letter(digit: nat): char
    requires digit < 26
  {
    ('A' as int + digit) as char
  }

  /** The label of the `n`-th column, counting from one. */
  function Label(n: nat): string {
    if n == 0 then "" else Label((n - 1) / 26) + [Letter((n - 1) % 26)]
  }

  function Labels(count: nat): (names: seq<string>)
    ensures |names| == count
  {
    seq(count, i requires 0 <= i < count => Label(i + 1))
  }

  method SyntheticHeaders(count: nat) returns (names: seq<string>)
    ensures names == Labels(count)
  {
    names := [];
    var i := 0;
    while i < count
      invariant 0 <= i <= count
      invariant names == Labels(i)
    {
      var name := "";
      var n: nat := i + 1;
      while n != 0
        invariant Label(n) + name == Label(i + 1)
      {
        name := [Letter((n - 1) % 26)] + name;
        n := (n - 1) / 26;
      }
      assert name == Label(0) + name;
      names := names + [name];
      assert Labels(i + 1) == Labels(i) + [Label(i + 1)];
      i := i + 1;
    }
  }

  /** The column a label stands for. */
  function Position(name: string): int {
    if name == "" then 0
    else 26 * Position(name[..|name| - 1]) + (name[|name| - 1] as int - 'A' as int + 1)
  }

  lemma {:induction false} PositionOfLabel(n: nat)
    ensures Position(Label(n)) == n
  {
    if n > 0 {
      PositionOfLabel((n - 1) / 26);
      var init := Label((n - 1) / 26);
      assert (init + [Letter((n - 1) % 26)])[..|init|] == init;
    }
  }

  predicate Capitals(name: string) {
    forall i :: 0 <= i < |name| ==> 'A' <= name[i] <= 'Z'
  }

  /** A label is the one word of capitals that stands for its column. */
  lemma {:induction false} OnlyLabel(name: string)
    requires Capitals(name)
    ensures Position(name) >= 0 && Label(Position(name)) == name
    ensures forall n: nat :: Label(n) == name ==> n == Position(name)
  {
    if name != "" {
      var init, last := name[..|name| - 1], name[|name| - 1];
      OnlyLabel(init);
      var p := Position(init);
      assert (26 * p + (last as int - 'A' as int)) / 26 == p;
      assert name == init + [last];
    }
    forall n: nat | Label(n) == name ensures n == Position(name) {
      PositionOfLabel(n);
    }
  }

  lemma {:induction false} LabelCapitals(n: nat)
    ensures Capitals(Label(n))
  {
    if n > 0 { LabelCapitals((n - 1) / 26); }
  }

  ghost predicate Unique(names: seq<string>) {
    forall i, j :: 0 <= i < j < |names| ==> names[i] != names[j]
  }

  /** Synthetic labels never collide, and none is empty. */
  lemma {:induction false} LabelsUnique(count: nat)
    ensures Unique(Labels(count))
    ensures forall i :: 0 <= i < count ==> Labels(count)[i] != ""
  {
    forall i, j | 0 <= i < j < count ensures Labels(count)[i] != Labels(count)[j] {
      LabelsDiffer(i + 1, j + 1);
    }
    forall i | 0 <= i < count ensures Labels(count)[i] != "" {
      LabelsDiffer(0, i + 1);
    }
  }

  lemma {:induction false} LabelsDiffer(m: nat, n: nat)
    requires m < n
    ensures Label(m) != Label(n)
  {
    PositionOfLabel(m);
    PositionOfLabel(n);
  }

  /** A key no column has: `_new` followed by as many underscores as it takes. */
  method FreshKey(headers: seq<string>) returns (key: string)
    ensures key !in headers
    ensures "_new" <= key && forall i :: 4 <= i < |key| ==> key[i] == '_'
    ensures forall k :: 4 <= k < |key| ==> key[..k] in headers
  {
    key := "_new";
    while key in headers
      invariant "_new" <= key && forall i :: 4 <= i < |key| ==> key[i] == '_'
      invariant forall k :: 4 <= k < |key| ==> key[..k] in headers
      decreases set h | h in headers && |h| >= |key|
    {
      ghost var before := key;
      ghost var longer := set h | h in headers && |h| >= |key|;
      key := key + "_";
      assert before in longer;
      assert forall k :: 4 <= k < |before| ==> key[..k] == before[..k];
      assert key[..|before|] == before;
    }
  }
}
