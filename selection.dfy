/** The selection subsystem: `data.selected` is an ordered sequence of
    elements, and membership is decided by comparing `id` fields. */
module Selection {
  import opened Elements

  /** Some selected element has the given id (`selected.some(e => e.id == id)`). */
  predicate HasId(s: seq<Element>, id: Id)
  {
    exists i :: 0 <= i < |s| && IdOf(s[i]) == id
  }

  /** No id occurs twice in the sequence. */
  predicate UniqueIds(s: seq<Element>)
  {
    forall i, j :: 0 <= i < j < |s| ==> IdOf(s[i]) != IdOf(s[j])
  }

  /** `selected.filter(e => e.id != id)`. */
  function WithoutId(s: seq<Element>, id: Id): (r: seq<Element>)
    ensures |r| <= |s|
    ensures !HasId(r, id)
    ensures forall e :: e in r ==> e in s
    ensures forall e :: e in s && IdOf(e) != id ==> e in r
  {
    if s == [] then []
    else if IdOf(s[0]) == id then WithoutId(s[1..], id)
    else [s[0]] + WithoutId(s[1..], id)
  }

  /** The new selection after the user clicks `obj`: drop every element with
      its id when one is present, otherwise append it. */
  function Toggle(s: seq<Element>, obj: Element): seq<Element>
  {
    if HasId(s, IdOf(obj)) then WithoutId(s, IdOf(obj)) else s + [obj]
  }

  /** Ids of the selected nodes, in selection order. */
  function NodeIds(s: seq<Element>): (r: seq<Id>)
    ensures forall id :: id in r <==> exists e :: e in s && e.HasLabels() && IdOf(e) == id
  {
    if s == [] then []
    else if s[0].HasLabels() then [IdOf(s[0])] + NodeIds(s[1..])
    else NodeIds(s[1..])
  }

  /** Ids of the selected elements that are not nodes, in selection order. */
  function EdgeIds(s: seq<Element>): (r: seq<Id>)
    ensures forall id :: id in r <==> exists e :: e in s && !e.HasLabels() && IdOf(e) == id
  {
    if s == [] then []
    else if !s[0].HasLabels() then [IdOf(s[0])] + EdgeIds(s[1..])
    else EdgeIds(s[1..])
  }

  /** Every selected element is a node or an edge, so the two id lists
      together are as long as the selection. */
  lemma {:induction false} SplitCoversSelection(s: seq<Element>)
    ensures |NodeIds(s)| + |EdgeIds(s)| == |s|
  {
    if s != [] {
      SplitCoversSelection(s[1..]);
    }
  }

  /** Filtering distributes over concatenation: the elements that survive keep
      their relative order. */
  lemma {:induction false} WithoutIdAppend(a: seq<Element>, b: seq<Element>, id: Id)
    ensures WithoutId(a + b, id) == WithoutId(a, id) + WithoutId(b, id)
  {
    if a == [] {
      assert a + b == b;
    } else {
      assert (a + b)[1..] == a[1..] + b;
      WithoutIdAppend(a[1..], b, id);
    }
  }

  /** Filtering out an id that is not present changes nothing. */
  lemma {:induction false} WithoutAbsentId(s: seq<Element>, id: Id)
    requires !HasId(s, id)
    ensures WithoutId(s, id) == s
  {
    if s != [] {
      assert IdOf(s[0]) != id;
      assert !HasId(s[1..], id);
      WithoutAbsentId(s[1..], id);
    }
  }

  /** Clicking an element flips whether its id is selected, in both directions. */
  lemma ToggleFlipsMembership(s: seq<Element>, obj: Element)
    ensures HasId(Toggle(s, obj), IdOf(obj)) <==> !HasId(s, IdOf(obj))
  {
    var r := Toggle(s, obj);
    if !HasId(s, IdOf(obj)) {
      assert r[|s|] == obj;
    }
  }

  /** Clicking leaves the elements with every other id where they were, in
      their order, and does not change whether any other id is selected. */
  lemma ToggleKeepsOthers(s: seq<Element>, obj: Element, id: Id)
    requires id != IdOf(obj)
    ensures WithoutId(Toggle(s, obj), IdOf(obj)) == WithoutId(s, IdOf(obj))
    ensures HasId(Toggle(s, obj), id) <==> HasId(s, id)
  {
    var x := IdOf(obj);
    if HasId(s, x) {
      WithoutAbsentId(WithoutId(s, x), x);
      if HasId(s, id) {
        var i :| 0 <= i < |s| && IdOf(s[i]) == id;
        assert s[i] in WithoutId(s, x);
      }
      if HasId(WithoutId(s, x), id) {
        var i :| 0 <= i < |WithoutId(s, x)| && IdOf(WithoutId(s, x)[i]) == id;
        assert WithoutId(s, x)[i] in s;
      }
    } else {
      WithoutIdAppend(s, [obj], x);
      assert WithoutId([obj], x) == [];
      if HasId(s + [obj], id) {
        var i :| 0 <= i < |s + [obj]| && IdOf((s + [obj])[i]) == id;
        assert i < |s| && (s + [obj])[i] == s[i];
      }
      if HasId(s, id) {
        var i :| 0 <= i < |s| && IdOf(s[i]) == id;
        assert (s + [obj])[i] == s[i];
      }
    }
  }

  /** Clicking an unselected element twice restores the original selection. */
  lemma {:induction false} ToggleTwiceRestores(s: seq<Element>, obj: Element)
    requires !HasId(s, IdOf(obj))
    ensures Toggle(Toggle(s, obj), obj) == s
  {
    var x := IdOf(obj);
    assert (s + [obj])[|s|] == obj;
    assert HasId(s + [obj], x);
    WithoutIdAppend(s, [obj], x);
    assert WithoutId([obj], x) == [];
    WithoutAbsentId(s, x);
  }

  /** A selection built by clicks never holds two elements with the same id. */
  lemma ToggleKeepsIdsUnique(s: seq<Element>, obj: Element)
    requires UniqueIds(s)
    ensures UniqueIds(Toggle(s, obj))
  {
    var x := IdOf(obj);
    if HasId(s, x) {
      WithoutIdKeepsIdsUnique(s, x);
    } else {
      var r := s + [obj];
      forall i, j | 0 <= i < j < |r| ensures IdOf(r[i]) != IdOf(r[j]) {
        if j == |s| {
          assert r[i] == s[i];
        }
      }
    }
  }

  /** A filtered sequence with unique ids still has unique ids. */
  lemma {:induction false} WithoutIdKeepsIdsUnique(s: seq<Element>, id: Id)
    requires UniqueIds(s)
    ensures UniqueIds(WithoutId(s, id))
  {
    if s != [] {
      assert UniqueIds(s[1..]) by {
        forall i, j | 0 <= i < j < |s[1..]| ensures IdOf(s[1..][i]) != IdOf(s[1..][j]) {
          assert s[1..][i] == s[i + 1] && s[1..][j] == s[j + 1];
        }
      }
      WithoutIdKeepsIdsUnique(s[1..], id);
      if IdOf(s[0]) != id {
        var t := WithoutId(s[1..], id);
        var r := [s[0]] + t;
        forall i, j | 0 <= i < j < |r| ensures IdOf(r[i]) != IdOf(r[j]) {
          if i == 0 {
            assert r[j] == t[j - 1] && t[j - 1] in s[1..];
            var k :| 0 <= k < |s[1..]| && s[1..][k] == t[j - 1];
            assert s[k + 1] == r[j];
          } else {
            assert r[i] == t[i - 1] && r[j] == t[j - 1];
          }
        }
      }
    }
  }
}
