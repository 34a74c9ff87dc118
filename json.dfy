/**
 * Decoded JSON values, as `json.loads` (through `resp.json()`) produces them and as
 * `munchify` leaves them: `munchify` only adds attribute access, so on data it is the identity.
 *
 * An object is its list of members in the order they appear on the wire. Python's `dict`
 * semantics are defined on that list: a key's value is its LAST binding, and iterating
 * the object yields each key once, in order of first appearance.
 */
module Json {

  datatype Json =
    | JNull
    | JBool(truth: bool)
    | JNumber(number: real)
    | JString(text: string)
    | JArray(elements: seq<Json>)
    | JObject(members: seq<(string, Json)>)

  /** `key in d` for a decoded object `d`. */
  predicate HasKey(members: seq<(string, Json)>, key: string)
    ensures HasKey(members, key) <==> exists i :: LastBindingAt(members, key, i)
  {
    LastBindingExists(members, key);
    exists i :: 0 <= i < |members| && members[i].0 == key
  }

  /** A key bound somewhere in an object has a last binding. */
  lemma {:induction false} LastBindingExists(members: seq<(string, Json)>, key: string)
    ensures (exists i :: 0 <= i < |members| && members[i].0 == key) ==> exists i :: LastBindingAt(members, key, i)
  {
    if members != [] {
      var n := |members| - 1;
      if members[n].0 == key {
        assert LastBindingAt(members, key, n);
      } else if exists i :: 0 <= i < |members| && members[i].0 == key {
        var init := members[..n];
        var i :| 0 <= i < |members| && members[i].0 == key;
        assert init[i].0 == key;
        LastBindingExists(init, key);
        var j :| LastBindingAt(init, key, j);
        assert members[j] == init[j];
        assert LastBindingAt(members, key, j);
      }
    }
  }

  /** Member `i` is the last binding of `key`: no later member rebinds it. */
  predicate LastBindingAt(members: seq<(string, Json)>, key: string, i: int) {
    && 0 <= i < |members|
    && members[i].0 == key
    && forall j :: i < j < |members| ==> members[j].0 != key
  }

  /** `d[key]`: the last binding of `key` wins, as in `json.loads`. */
  function Get(members: seq<(string, Json)>, key: string): (v: Json)
    requires HasKey(members, key)
    ensures exists i :: LastBindingAt(members, key, i) && members[i].1 == v
  {
    var n := |members| - 1;
    if members[n].0 == key then
      assert LastBindingAt(members, key, n);
      members[n].1
    else
      var init := members[..n];
      assert HasKey(init, key) by {
        var i :| 0 <= i < |members| && members[i].0 == key;
        assert init[i].0 == key;
      }
      var v := Get(init, key);
      var i :| LastBindingAt(init, key, i) && init[i].1 == v;
      assert members[i] == init[i];
      assert LastBindingAt(members, key, i);
      v
  }

  /** Member `i` is the first binding of `key`: no earlier member binds it. */
  predicate FirstBindingAt(members: seq<(string, Json)>, key: string, i: int) {
    && 0 <= i < |members|
    && members[i].0 == key
    && forall j :: 0 <= j < i ==> members[j].0 != key
  }

  /** The keys of a decoded object, as `for k in d` yields them: each once, by first appearance. */
  function Keys(members: seq<(string, Json)>): (ks: seq<string>)
    ensures forall k :: k in ks <==> HasKey(members, k)
    ensures forall i, j :: 0 <= i < j < |ks| ==> ks[i] != ks[j]
    ensures forall i, j, p, q ::
              0 <= i < j < |ks| && FirstBindingAt(members, ks[i], p) && FirstBindingAt(members, ks[j], q) ==> p < q
  {
    if members == [] then []
    else
      var n := |members| - 1;
      var init := members[..n];
      var ks := Keys(init);
      var k := members[n].0;
      ExtendByLast(members);
      if k in ks then ks
      else
        var ks' := ks + [k];
        assert forall i :: 0 <= i < |ks| ==> ks'[i] == ks[i] && HasKey(init, ks[i]);
        ks'
  }

  /** How keys, and their first bindings, in an object relate to those of all but its last member. */
  lemma ExtendByLast(members: seq<(string, Json)>)
    requires members != []
    ensures var n := |members| - 1; var init := members[..n];
            && (forall k' :: HasKey(members, k') <==> HasKey(init, k') || k' == members[n].0)
            && (forall k', p :: FirstBindingAt(members, k', p) && HasKey(init, k') ==> p < n && FirstBindingAt(init, k', p))
            && (!HasKey(init, members[n].0) ==> forall q :: FirstBindingAt(members, members[n].0, q) ==> q == n)
  {
    var n := |members| - 1;
    var init := members[..n];
    forall k' | HasKey(init, k') ensures HasKey(members, k') {
      var i :| 0 <= i < |init| && init[i].0 == k';
      assert members[i].0 == k';
    }
    forall k' | HasKey(members, k') && k' != members[n].0 ensures HasKey(init, k') {
      var i :| 0 <= i < |members| && members[i].0 == k';
      assert init[i].0 == k';
    }
    assert HasKey(members, members[n].0);
    forall k', p | FirstBindingAt(members, k', p) && HasKey(init, k') ensures p < n && FirstBindingAt(init, k', p) {
      var i :| 0 <= i < |init| && init[i].0 == k';
      assert members[i].0 == k';
    }
    if !HasKey(init, members[n].0) {
      forall q | 0 <= q < n ensures members[q].0 != members[n].0 {
        assert init[q] == members[q];
      }
    }
  }

  /** `needle` occurs in `hay` starting at index `i`. */
  predicate OccursAt(hay: string, needle: string, i: int) {
    0 <= i && i + |needle| <= |hay| && hay[i..i + |needle|] == needle
  }

  /** `needle in hay` for Python strings: `needle` occurs in `hay` as a contiguous run. */
  function Contains(hay: string, needle: string): (found: bool)
    ensures found <==> exists i :: OccursAt(hay, needle, i)
  {
    if needle <= hay then
      assert OccursAt(hay, needle, 0);
      true
    else if |hay| == 0 then
      assert forall i :: !OccursAt(hay, needle, i);
      false
    else
      var found := Contains(hay[1..], needle);
      assert forall i :: OccursAt(hay[1..], needle, i) <==> OccursAt(hay, needle, i + 1) by {
        forall i ensures OccursAt(hay[1..], needle, i) <==> OccursAt(hay, needle, i + 1) {
          if 0 <= i && i + |needle| <= |hay| - 1 {
            DropFirstSlice(hay, i, |needle|);
          }
        }
      }
      assert !OccursAt(hay, needle, 0);
      assert (exists i :: OccursAt(hay, needle, i)) ==> exists i :: OccursAt(hay[1..], needle, i) by {
        if exists i :: OccursAt(hay, needle, i) {
          var i :| OccursAt(hay, needle, i);
          assert OccursAt(hay[1..], needle, i - 1);
        }
      }
      found
  }

  /** A slice of a string with its first character dropped is a slice of the string one place on. */
  lemma DropFirstSlice(hay: string, i: nat, len: nat)
    requires 0 < |hay| && i + len <= |hay| - 1
    ensures hay[1..][i..i + len] == hay[i + 1..i + 1 + len]
  {
    var shifted, direct := hay[1..][i..i + len], hay[i + 1..i + 1 + len];
    forall m | 0 <= m < len ensures shifted[m] == direct[m] {
      assert hay[1..][i + m] == hay[i + 1 + m];
    }
    assert shifted == direct;
  }
}
