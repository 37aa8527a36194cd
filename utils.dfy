/**
 The two collection helpers the merges are built from, neither of which belongs
 to the mutator itself:
 - `utils.CreateMapFromSlice` (Gardener's pkg/utils) indexes a list by a key.
   Its source is not part of this model; it is modelled here as a left fold in
   which a later entry overwrites an earlier one of the same name. That
   last-write-wins behaviour is an ASSUMPTION about the helper, not a fact
   proved about its code.
 - `slices.Collect(maps.Values(m))` (Go standard library) lists a map's values
   in an order the language leaves unspecified; the model picks keys with `:|`
   so that every order is allowed.
 */
module Utils {
  import opened V1alpha1

  /** The names carried by the entries of a list. */
  ghost function Names<P>(s: seq<Entry<P>>): set<string>
  {
    set e | e in s :: e.name
  }

  /** Every key of `m` indexes an entry of that very name. */
  ghost predicate KeyedByName<P>(m: map<string, Entry<P>>)
  {
    forall n :: n in m ==> m[n].name == n
  }

  /** No name occurs twice in `s`. */
  ghost predicate NamesDistinct<P>(s: seq<Entry<P>>)
  {
    forall i, j :: 0 <= i < j < |s| ==> s[i].name != s[j].name
  }

  /** `s` lists the entries of `m`, each exactly once, in some order. */
  ghost predicate Lists<P>(s: seq<Entry<P>>, m: map<string, Entry<P>>)
  {
    && NamesDistinct(s)
    && Names(s) == m.Keys
    && forall i :: 0 <= i < |s| ==> s[i].name in m && s[i] == m[s[i].name]
  }

  /** `s[i]` is the last entry of `s` that carries its name. */
  ghost predicate LastOfName<P>(s: seq<Entry<P>>, i: int)
  {
    0 <= i < |s| && forall k :: i < k < |s| ==> s[k].name != s[i].name
  }

  /** `utils.CreateMapFromSlice(s, func(e) string { return e.Name })`, under the
      assumption that a later entry overwrites an earlier one of the same name. */
  function CreateMapFromSlice<P>(s: seq<Entry<P>>): (m: map<string, Entry<P>>)
    ensures KeyedByName(m)
    ensures forall n :: n in m ==> m[n] in s
    decreases |s|
  {
    if s == [] then map[]
    else
      var init, last := s[..|s| - 1], s[|s| - 1];
      assert s == init + [last];
      CreateMapFromSlice(init)[last.name := last]
  }

  /** The index has a key for every name in the list and for nothing else. */
  lemma {:induction false} CreateMapFromSliceKeys<P>(s: seq<Entry<P>>)
    ensures CreateMapFromSlice(s).Keys == Names(s)
    decreases |s|
  {
    if s != [] {
      var init, last := s[..|s| - 1], s[|s| - 1];
      assert s == init + [last];
      CreateMapFromSliceKeys(init);
      assert Names(s) == Names(init) + {last.name};
    }
  }

  /** Last write wins: the entry kept for a name is the last one carrying it. */
  lemma {:induction false} CreateMapFromSliceLastWins<P>(s: seq<Entry<P>>, i: int)
    requires LastOfName(s, i)
    ensures s[i].name in CreateMapFromSlice(s)
    ensures CreateMapFromSlice(s)[s[i].name] == s[i]
  {
    if i < |s| - 1 {
      var init := s[..|s| - 1];
      assert LastOfName(init, i) by {
        forall k | i < k < |init| ensures init[k].name != init[i].name {
          assert init[k] == s[k];
        }
      }
      CreateMapFromSliceLastWins(init, i);
    }
  }

  /** Indexing a listing of a name-keyed map gives the map back: listing the
      values of a map and re-indexing them by name is a round trip. */
  lemma CreateMapFromSliceOfListing<P>(s: seq<Entry<P>>, m: map<string, Entry<P>>)
    requires Lists(s, m)
    ensures CreateMapFromSlice(s) == m
  {
    var r := CreateMapFromSlice(s);
    CreateMapFromSliceKeys(s);
    forall n | n in m ensures r[n] == m[n] {
      var e :| e in s && e.name == n;
      var i :| 0 <= i < |s| && s[i] == e;
      CreateMapFromSliceLastWins(s, i);
    }
  }

  /** `slices.Collect(maps.Values(m))`: the values of `m`, one per key, in an
      unspecified order; the ghost `order` records which key each came from. */
  method CollectValues<P>(m: map<string, Entry<P>>) returns (s: seq<Entry<P>>, ghost order: seq<string>)
    ensures |order| == |s|
    ensures forall i :: 0 <= i < |s| ==> order[i] in m && s[i] == m[order[i]]
    ensures forall i, j :: 0 <= i < j < |order| ==> order[i] != order[j]
    ensures forall k :: k in m ==> k in order
    ensures KeyedByName(m) ==> Lists(s, m)
  {
    s, order := [], [];
    var pending := m.Keys;
    while pending != {}
      invariant |order| == |s|
      invariant forall i :: 0 <= i < |s| ==> order[i] in m && s[i] == m[order[i]]
      invariant forall i, j :: 0 <= i < j < |order| ==> order[i] != order[j]
      invariant forall k :: k in pending ==> k in m && k !in order
      invariant forall k :: k in m ==> k in pending || k in order
      decreases pending
    {
      var k :| k in pending;
      s := s + [m[k]];
      order := order + [k];
      pending := pending - {k};
    }
    if KeyedByName(m) {
      assert forall i :: 0 <= i < |s| ==> s[i].name == order[i];
      forall n | n in m ensures n in Names(s) {
        var i :| 0 <= i < |order| && order[i] == n;
        assert s[i].name == n;
      }
    }
  }
}
