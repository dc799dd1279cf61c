// The chains of the hash table as sequences of entries, and why sorted chains
// are finite maps.

module Chains {
  import opened Texts

  // A value is a pointer or an offset; zero stands for none.
  datatype Entry = Entry(key: Text, value: nat)

  predicate Sorted(e: seq<Entry>) {
    forall i, j :: 0 <= i < j < |e| ==> Compare(e[i].key, e[j].key) < 0
  }

  /** The first place that does not come before the key. */
  predicate IsPosition(e: seq<Entry>, key: Text, p: nat) {
    && p <= |e|
    && (forall i :: 0 <= i < p ==> Compare(key, e[i].key) > 0)
    && (p < |e| ==> Compare(key, e[p].key) <= 0)
  }

  predicate HasKey(e: seq<Entry>, k: Text) {
    exists i :: 0 <= i < |e| && e[i].key == k
  }

  predicate Agree(e: seq<Entry>, m: map<Text, nat>) {
    forall i :: 0 <= i < |e| ==> e[i].key in m && m[e[i].key] == e[i].value
  }

  /** The entries represent the map: one entry for each of its keys. */
  ghost predicate Represents(e: seq<Entry>, m: map<Text, nat>) {
    Sorted(e) && Agree(e, m) && forall k :: k in m ==> HasKey(e, k)
  }

  /** The entries after setting a key: replaced in its place, or put in front of the first greater key. */
  function Inserted(e: seq<Entry>, key: Text, value: nat, p: nat): seq<Entry>
    requires p <= |e|
  {
    if p < |e| && e[p].key == key then e[p := Entry(key, value)] else e[..p] + [Entry(key, value)] + e[p..]
  }

  function Deleted(e: seq<Entry>, key: Text, p: nat): seq<Entry>
    requires p <= |e|
  {
    if p < |e| && e[p].key == key then e[..p] + e[p + 1..] else e
  }

  /** In a sorted chain the key is at its position or nowhere: stopping there misses nothing. */
  lemma StopsRight(e: seq<Entry>, key: Text, p: nat, i: nat)
    requires Sorted(e) && IsPosition(e, key, p) && i < |e| && e[i].key == key
    ensures i == p
  {
    CompareSame(key);
    if p < i {
      CompareZero(key, e[p].key);
      if Compare(key, e[p].key) < 0 {
        CompareChains(key, e[p].key, e[i].key);
      }
    }
  }

  lemma InsertedSorted(e: seq<Entry>, key: Text, value: nat, p: nat)
    requires Sorted(e) && IsPosition(e, key, p)
    ensures Sorted(Inserted(e, key, value, p))
  {
    var r := Inserted(e, key, value, p);
    if !(p < |e| && e[p].key == key) {
      forall i, j | 0 <= i < j < |r| ensures Compare(r[i].key, r[j].key) < 0 {
        if j == p {
          CompareFlips(key, e[i].key);
        } else if i == p {
          CompareZero(key, e[p].key);
          if j - 1 > p {
            CompareChains(key, e[p].key, e[j - 1].key);
          }
        }
      }
    }
  }

  lemma InsertedEntry(e: seq<Entry>, m: map<Text, nat>, key: Text, value: nat, p: nat, i: nat)
    requires Sorted(e) && Agree(e, m) && IsPosition(e, key, p) && i < |Inserted(e, key, value, p)|
    ensures var x := Inserted(e, key, value, p)[i];
      x.key in m[key := value] && m[key := value][x.key] == x.value
  {
    hide Compare;
    if i != p {
      var j := if i < p || |Inserted(e, key, value, p)| == |e| then i else i - 1;
      assert Inserted(e, key, value, p)[i] == e[j];
      if e[j].key == key {
        StopsRight(e, key, p, j);
      }
    }
  }

  lemma InsertedKey(e: seq<Entry>, key: Text, value: nat, p: nat, k: Text)
    requires p <= |e| && (k == key || HasKey(e, k))
    ensures HasKey(Inserted(e, key, value, p), k)
  {
    var r := Inserted(e, key, value, p);
    if k == key {
      assert r[p].key == key;
    } else {
      var j :| 0 <= j < |e| && e[j].key == k;
      assert r[if j < p || |r| == |e| then j else j + 1].key == k;
    }
  }

  function SetIn(m: map<Text, nat>, key: Text, value: nat): map<Text, nat> {
    m[key := value]
  }

  /** Setting a key in a chain sets it in the map. */
  lemma InsertRefines(e: seq<Entry>, m: map<Text, nat>, key: Text, value: nat, p: nat)
    requires Represents(e, m) && IsPosition(e, key, p)
    ensures Represents(Inserted(e, key, value, p), SetIn(m, key, value))
  {
    hide Sorted, IsPosition, Inserted, HasKey;
    PositionInside(e, key, p);
    InsertedSorted(e, key, value, p);
    var r, m2 := Inserted(e, key, value, p), m[key := value];
    forall i | 0 <= i < |r| ensures r[i].key in m2 && m2[r[i].key] == r[i].value {
      InsertedEntry(e, m, key, value, p, i);
    }
    forall k | k in m2 ensures HasKey(r, k) {
      InsertedKey(e, key, value, p, k);
    }
  }

  lemma PositionInside(e: seq<Entry>, key: Text, p: nat)
    requires IsPosition(e, key, p)
    ensures p <= |e|
  {
  }

  lemma DeletedEntry(e: seq<Entry>, m: map<Text, nat>, key: Text, p: nat, i: nat)
    requires Sorted(e) && Agree(e, m) && IsPosition(e, key, p) && i < |Deleted(e, key, p)|
    ensures var x := Deleted(e, key, p)[i];
      x.key in m - {key} && (m - {key})[x.key] == x.value
  {
    var j := if |Deleted(e, key, p)| == |e| || i < p then i else i + 1;
    assert Deleted(e, key, p)[i] == e[j];
    if e[j].key == key {
      StopsRight(e, key, p, j);
    }
  }

  lemma DeletedKey(e: seq<Entry>, key: Text, p: nat, k: Text)
    requires p <= |e| && k != key && HasKey(e, k)
    ensures HasKey(Deleted(e, key, p), k)
  {
    var r := Deleted(e, key, p);
    var j :| 0 <= j < |e| && e[j].key == k;
    assert r[if j < p || |r| == |e| then j else j - 1].key == k;
  }

  lemma DeletedSorted(e: seq<Entry>, key: Text, p: nat)
    requires Sorted(e) && p <= |e|
    ensures Sorted(Deleted(e, key, p))
  {
    var r := Deleted(e, key, p);
    forall i, j | 0 <= i < j < |r| ensures Compare(r[i].key, r[j].key) < 0 {
      assert r[i] == e[if i < p || |r| == |e| then i else i + 1];
      assert r[j] == e[if j < p || |r| == |e| then j else j + 1];
    }
  }

  /** Deleting a key from a chain removes it from the map. */
  lemma DeleteRefines(e: seq<Entry>, m: map<Text, nat>, key: Text, p: nat)
    requires Represents(e, m) && IsPosition(e, key, p)
    ensures Represents(Deleted(e, key, p), m - {key})
  {
    hide Sorted, IsPosition, Deleted, HasKey;
    PositionInside(e, key, p);
    DeletedSorted(e, key, p);
    var r, m2 := Deleted(e, key, p), m - {key};
    forall i | 0 <= i < |r| ensures r[i].key in m2 && m2[r[i].key] == r[i].value {
      DeletedEntry(e, m, key, p, i);
    }
    forall k | k in m2 ensures HasKey(r, k) {
      DeletedKey(e, key, p, k);
    }
  }

  /** Looking at the key's position is looking the key up in the map. */
  lemma LookupRefines(e: seq<Entry>, m: map<Text, nat>, key: Text, p: nat)
    requires Represents(e, m) && IsPosition(e, key, p)
    ensures key in m <==> p < |e| && e[p].key == key
    ensures key in m ==> m[key] == e[p].value
  {
    if key in m {
      assert HasKey(e, key);
      var i :| 0 <= i < |e| && e[i].key == key;
      StopsRight(e, key, p, i);
    }
  }

  // ---- Looking for a string that ends in another ----

  /** Where the search for a string sharing its end comes to an end: at a string ending in it, or at a greater one as long. */
  predicate Stops(x: Text, key: Text) {
    EndsWith(x, key) || (|x| == |key| && Compare(key, x) < 0)
  }

  predicate IsStop(e: seq<Entry>, key: Text, p: nat) {
    && p <= |e|
    && (forall i :: 0 <= i < p ==> !Stops(e[i].key, key))
    && (p < |e| ==> Stops(e[p].key, key))
  }

  /** A key ending in the wanted string that is not behind a greater one of the wanted length. */
  predicate InReach(keys: set<Text>, key: Text, k: Text) {
    k in keys && EndsWith(k, key) && forall x :: x in keys && |x| == |key| && Compare(key, x) < 0 ==> Compare(k, x) < 0
  }

  /** The search finds a string to share exactly if there is one in reach. */
  lemma SharedFound(e: seq<Entry>, m: map<Text, nat>, key: Text, p: nat)
    requires Represents(e, m) && IsStop(e, key, p)
    ensures p < |e| && EndsWith(e[p].key, key) <==> exists k :: InReach(m.Keys, key, k)
  {
    if p < |e| && EndsWith(e[p].key, key) {
      forall x | x in m.Keys && |x| == |key| && Compare(key, x) < 0 ensures Compare(e[p].key, x) < 0 {
        assert HasKey(e, x);
        var j :| 0 <= j < |e| && e[j].key == x;
        assert Stops(x, key);
        if j == p {
          CompareSame(key);
        }
      }
      assert InReach(m.Keys, key, e[p].key);
    }
    if k :| InReach(m.Keys, key, k) {
      assert HasKey(e, k);
      var i :| 0 <= i < |e| && e[i].key == k;
      assert Stops(k, key);
      if p < |e| && !EndsWith(e[p].key, key) {
        var x := e[p].key;
        assert x in m.Keys && Compare(k, x) < 0;
        CompareFlips(k, x);
        if i == p {
          CompareSame(x);
        }
      }
    }
  }

  /** A string that is itself a key is always in reach. */
  lemma KeyInReach(keys: set<Text>, key: Text)
    requires key in keys
    ensures InReach(keys, key, key)
  {
  }
}
