// The chained hash table: every bin is a linked list of nodes sorted by key.

module HashTable {
  import opened Texts
  import opened Chains

  class HashNode {
    const key: Text
    var value: nat
    var next: HashNode?
    // The bin the node belongs to.
    ghost const home: nat

    constructor (key: Text, value: nat, ghost home: nat)
      ensures this.key == key && this.value == value && next == null && this.home == home
    {
      this.key, this.value, next, this.home := key, value, null, home;
    }
  }

  /** The nodes of c are linked one after the other, starting at head. */
  ghost predicate Linked(head: HashNode?, c: seq<HashNode>)
    reads c`next
  {
    && head == NodeAt(c, 0)
    && forall i :: 0 <= i < |c| ==> c[i].next == NodeAt(c, i + 1)
  }

  ghost function NodeAt(c: seq<HashNode>, i: nat): HashNode? {
    if i < |c| then c[i] else null
  }

  ghost function Entries(c: seq<HashNode>): (e: seq<Entry>)
    reads c`value
    ensures |e| == |c| && forall i :: 0 <= i < |c| ==> e[i] == Entry(c[i].key, c[i].value)
  {
    if c == [] then [] else [Entry(c[0].key, c[0].value)] + Entries(c[1..])
  }

  /** A chain of bin b: linked, at home there, and representing its map. */
  ghost predicate ChainOk(head: HashNode?, c: seq<HashNode>, m: map<Text, nat>, b: nat)
    reads c`next, c`value
  {
    Linked(head, c) && Represents(Entries(c), m) && forall i :: 0 <= i < |c| ==> c[i].home == b
  }

  lemma SortedDistinct(c: seq<HashNode>, m: map<Text, nat>)
    requires Represents(Entries(c), m)
    ensures Distinct(c)
  {
    forall i, j | 0 <= i < j < |c| ensures c[i] != c[j] {
      CompareSame(c[i].key);
    }
  }

  lemma NextIs(head: HashNode?, c: seq<HashNode>, p: nat, node: HashNode?)
    requires Linked(head, c) && node == NodeAt(c, p)
    ensures node != null ==> p < |c| && node == c[p] && node.next == NodeAt(c, p + 1)
  {
  }

  predicate AllBefore(e: seq<Entry>, key: Text, p: nat) {
    p <= |e| && forall i :: 0 <= i < p ==> Compare(key, e[i].key) > 0
  }

  lemma OneMoreBefore(c: seq<HashNode>, key: Text, p: nat)
    requires p < |c| && AllBefore(Entries(c), key, p) && Compare(key, c[p].key) > 0
    ensures AllBefore(Entries(c), key, p + 1)
  {
  }

  lemma FoundPosition(c: seq<HashNode>, key: Text, p: nat)
    requires AllBefore(Entries(c), key, p)
    requires NodeAt(c, p) == null || (p < |c| && Compare(key, c[p].key) <= 0)
    ensures IsPosition(Entries(c), key, p)
  {
  }

  lemma Nothing(c: seq<HashNode>, key: Text)
    ensures AllBefore(Entries(c), key, 0)
  {
  }

  /** A node put into a chain at p. */
  lemma LinkedInserted(head: HashNode?, c: seq<HashNode>, p: nat, node: HashNode)
    requires p <= |c| && head == (if p == 0 then node else NodeAt(c, 0)) && node.next == NodeAt(c, p)
    requires forall i :: 0 <= i < |c| ==> c[i].next == if i + 1 == p then node else NodeAt(c, i + 1)
    ensures Linked(head, c[..p] + [node] + c[p..])
  {
  }

  lemma PutIn<T>(s: seq<T>, p: nat, x: T, i: nat)
    requires p <= |s| && i <= |s|
    ensures var t := s[..p] + [x] + s[p..];
      |t| == |s| + 1 && t[i] == if i < p then s[i] else if i == p then x else s[i - 1]
  {
  }

  lemma InsertedIs(e: seq<Entry>, key: Text, value: nat, p: nat)
    requires p <= |e| && !(p < |e| && e[p].key == key)
    ensures Inserted(e, key, value, p) == e[..p] + [Entry(key, value)] + e[p..]
  {
  }

  lemma EntriesInserted(c: seq<HashNode>, e: seq<Entry>, p: nat, node: HashNode)
    requires p <= |c| && e == Entries(c) && !(p < |c| && c[p].key == node.key)
    ensures Entries(c[..p] + [node] + c[p..]) == Inserted(e, node.key, node.value, p)
  {
    hide *;
    InsertedIs(e, node.key, node.value, p);
    var x, r := Entries(c[..p] + [node] + c[p..]), e[..p] + [Entry(node.key, node.value)] + e[p..];
    forall i | 0 <= i < |r| ensures x[i] == r[i] {
      PutIn(c, p, node, i);
      PutIn(e, p, Entry(node.key, node.value), i);
    }
  }

  lemma EntriesReplaced(c: seq<HashNode>, e: seq<Entry>, p: nat, value: nat)
    requires p < |c| == |e| && c[p].value == value
    requires forall i :: 0 <= i < |c| ==> e[i].key == c[i].key && (i != p ==> e[i].value == c[i].value)
    ensures Entries(c) == Inserted(e, c[p].key, value, p)
  {
  }

  ghost predicate Distinct(c: seq<HashNode>) {
    forall i, j :: 0 <= i < j < |c| ==> c[i] != c[j]
  }

  /** Puts a node into a chain: at its start, at its end, or between two nodes. */
  method LinkIn(bins: array<HashNode?>, bin: nat, last: HashNode?, next: HashNode?, node: HashNode, ghost c: seq<HashNode>, ghost p: nat)
    requires bin < bins.Length && Linked(bins[bin], c) && Distinct(c) && node !in c && p <= |c|
    requires next == NodeAt(c, p) && (if p > 0 then last == c[p - 1] else last == null) && node.next == null
    modifies bins, node`next, (if last == null then {} else {last})`next
    ensures Linked(bins[bin], c[..p] + [node] + c[p..])
    ensures forall b :: 0 <= b < bins.Length && b != bin ==> bins[b] == old(bins[b])
  {
    if next == bins[bin] {
      node.next := next;
      bins[bin] := node;
    } else if next == null {
      last.next := node;
    } else {
      node.next := next;
      last.next := node;
    }
    LinkedInserted(bins[bin], c, p, node);
  }

  /** Takes the node at p out of a chain. */
  method Unlink(bins: array<HashNode?>, bin: nat, last: HashNode?, node: HashNode, ghost c: seq<HashNode>, ghost p: nat)
    requires bin < bins.Length && Linked(bins[bin], c) && Distinct(c) && p < |c|
    requires node == c[p] && (if p > 0 then last == c[p - 1] else last == null)
    modifies bins, (if last == null then {} else {last})`next
    ensures Linked(bins[bin], c[..p] + c[p + 1..])
    ensures forall b :: 0 <= b < bins.Length && b != bin ==> bins[b] == old(bins[b])
  {
    NextIs(bins[bin], c, p, node);
    if last == null {
      bins[bin] := node.next;
    } else {
      last.next := node.next;
    }
    LinkedDeleted(bins[bin], c, p);
  }

  lemma LinkedDeleted(head: HashNode?, c: seq<HashNode>, p: nat)
    requires p < |c| && head == (if p == 0 then NodeAt(c, 1) else NodeAt(c, 0))
    requires forall i :: 0 <= i < |c| && i != p ==> c[i].next == if i + 1 == p then NodeAt(c, p + 1) else NodeAt(c, i + 1)
    ensures Linked(head, c[..p] + c[p + 1..])
  {
  }

  lemma EntriesDeleted(c: seq<HashNode>, e: seq<Entry>, p: nat)
    requires p < |c| && e == Entries(c)
    ensures Entries(c[..p] + c[p + 1..]) == Deleted(e, c[p].key, p)
  {
    var x := Entries(c[..p] + c[p + 1..]);
    assert e[p].key == c[p].key && Deleted(e, c[p].key, p) == e[..p] + e[p + 1..];
    hide *;
    var r := e[..p] + e[p + 1..];
    forall i | 0 <= i < |r| ensures x[i] == r[i] {
      if i >= p {
        assert r[i] == e[i + 1];
      }
    }
  }

  predicate NoStop(e: seq<Entry>, key: Text, p: nat) {
    p <= |e| && forall i :: 0 <= i < p ==> !Stops(e[i].key, key)
  }

  lemma NothingStops(c: seq<HashNode>, key: Text)
    ensures NoStop(Entries(c), key, 0)
  {
  }

  lemma NoStopStep(e: seq<Entry>, key: Text, p: nat)
    requires p < |e| && NoStop(e, key, p) && !Stops(e[p].key, key)
    ensures NoStop(e, key, p + 1)
  {
    hide Stops;
  }

  lemma OneMoreNoStop(c: seq<HashNode>, key: Text, p: nat)
    requires p < |c| && NoStop(Entries(c), key, p) && !Stops(c[p].key, key)
    ensures NoStop(Entries(c), key, p + 1)
  {
    hide *;
    NoStopStep(Entries(c), key, p);
  }

  /** The tests made on one node, put together. */
  lemma StopsHere(x: Text, key: Text)
    ensures |x| < |key| ==> !Stops(x, key)
    ensures |x| == |key| ==> (Stops(x, key) <==> Compare(key, x) <= 0) && (EndsWith(x, key) <==> Compare(key, x) == 0)
    ensures |x| > |key| ==> (Stops(x, key) <==> Compare(key, x[|x| - |key|..]) == 0) && (Stops(x, key) <==> EndsWith(x, key))
  {
    if |x| == |key| {
      assert x[|x| - |key|..] == x;
      CompareZero(key, x);
    } else if |x| > |key| {
      CompareZero(key, x[|x| - |key|..]);
    }
  }

  /** What the search has found when it stops. */
  lemma SharedResult(c: seq<HashNode>, m: map<Text, nat>, key: Text, p: nat) returns (found: bool, source: Text)
    requires Represents(Entries(c), m) && NoStop(Entries(c), key, p) && p <= |c| && (p < |c| ==> Stops(c[p].key, key))
    ensures found <==> exists k :: InReach(m.Keys, key, k)
    ensures found <==> p < |c| && EndsWith(c[p].key, key)
    ensures found ==> source == c[p].key && source in m && m[source] == c[p].value
  {
    var e := Entries(c);
    SharedFound(e, m, key, p);
    found := p < |c| && EndsWith(c[p].key, key);
    source := if p < |c| then c[p].key else key;
    if found {
      assert e[p].key in m;
    }
  }

  /** If a node of the chain holds the key, it is this one. */
  ghost predicate OnlyCandidate(c: seq<HashNode>, key: Text, node: HashNode?) {
    && (node != null ==> node in c)
    && forall i :: 0 <= i < |c| && c[i].key == key ==> node == c[i]
  }

  lemma OnlyThere(c: seq<HashNode>, m: map<Text, nat>, key: Text, p: nat, node: HashNode?)
    requires Represents(Entries(c), m) && IsPosition(Entries(c), key, p) && node == NodeAt(c, p)
    ensures OnlyCandidate(c, key, node)
  {
    hide IsPosition;
    forall i | 0 <= i < |c| && c[i].key == key
      ensures i == p
    {
      StopsRight(Entries(c), key, p, i);
    }
  }

  /** The value is the offset of the key in a stored string that ends in it. */
  ghost predicate OffersEnd(m: map<Text, nat>, key: Text, value: nat) {
    exists t: Text :: t in m && EndsWith(t, key) && value == m[t] + (|t| - |key|)
  }

  lemma Offers(m: map<Text, nat>, key: Text, value: nat, t: Text)
    requires t in m && EndsWith(t, key) && value == m[t] + (|t| - |key|)
    ensures OffersEnd(m, key, value)
  {
  }

  class Table {
    const bins: array<HashNode?>
    ghost var chains: seq<seq<HashNode>>
    ghost var maps: seq<map<Text, nat>>
    ghost var nodes: set<HashNode>

    ghost predicate Valid()
      reads this, bins, nodes
    {
      && |chains| == |maps| == bins.Length
      && forall b :: 0 <= b < |chains| ==> Inside(chains[b]) && ChainOk(bins[b], chains[b], maps[b], b)
    }

    ghost predicate Inside(c: seq<HashNode>)
      reads this`nodes
    {
      forall i :: 0 <= i < |c| ==> c[i] in nodes
    }

    constructor (size: nat)
      requires size > 0
      ensures Valid() && fresh(bins) && nodes == {} && bins.Length == size && maps == seq(size, _ => map[])
    {
      bins := new HashNode?[size](_ => null);
      chains := seq(size, _ => []);
      maps := seq(size, _ => map[]);
      nodes := {};
    }

    lemma ChainOf(bin: nat)
      requires Valid() && bin < bins.Length
      ensures bin < |chains| == |maps| && Linked(bins[bin], chains[bin]) && Represents(Entries(chains[bin]), maps[bin])
      ensures forall i :: 0 <= i < |chains[bin]| ==> chains[bin][i].home == bin && chains[bin][i] in nodes
      ensures Distinct(chains[bin])
    {
      SortedDistinct(chains[bin], maps[bin]);
    }

    /** The first node of a bin whose key does not come before the given one. */
    method Find(key: Text, bin: nat) returns (last: HashNode?, node: HashNode?, ghost p: nat)
      requires Valid() && bin < bins.Length
      ensures bin < |chains| && IsPosition(Entries(chains[bin]), key, p) && p <= |chains[bin]|
      ensures node == NodeAt(chains[bin], p) && (if p > 0 then last == chains[bin][p - 1] else last == null)
      ensures OnlyCandidate(chains[bin], key, node)
    {
      hide *;
      ChainOf(bin);
      ghost var c := chains[bin];
      last, node, p := null, bins[bin], 0;
      Nothing(c, key);
      FirstIs(bins[bin], c);
      while node != null && Compare(key, node.key) > 0
        invariant node == NodeAt(c, p) && AllBefore(Entries(c), key, p) && p <= |c|
        invariant if p > 0 then last == c[p - 1] else last == null
        decreases |c| - p
      {
        NextIs(bins[bin], c, p, node);
        OneMoreBefore(c, key, p);
        last, node := node, node.next;
        p := p + 1;
      }
      NextIs(bins[bin], c, p, node);
      FoundPosition(c, key, p);
      OnlyThere(c, maps[bin], key, p, node);
    }

    lemma FirstIs(head: HashNode?, c: seq<HashNode>)
      requires Linked(head, c)
      ensures head == NodeAt(c, 0)
    {
    }

    /** The value of a key, or zero. */
    method GetH(key: Text, bin: nat) returns (value: nat)
      requires Valid() && bin < bins.Length
      ensures bin < |maps| && value == if key in maps[bin] then maps[bin][key] else 0
    {
      var _, node, p := Find(key, bin);
      ChainOf(bin);
      LookupRefines(Entries(chains[bin]), maps[bin], key, p);
      hide Valid, Represents, IsPosition;
      CompareMeansEqual(key, node);
      if node == null || Compare(key, node.key) != 0 {
        return 0;
      }
      return node.value;
    }

    /** The offset of a stored string's end that spells the key, if the search finds one. */
    method GetShared(key: Text, bin: nat) returns (value: nat, ghost found: bool, ghost source: Text)
      requires Valid() && bin < bins.Length
      ensures bin < |maps| && (found <==> exists k :: InReach(maps[bin].Keys, key, k))
      ensures found ==> source in maps[bin] && EndsWith(source, key) && value == maps[bin][source] + (|source| - |key|)
      ensures !found ==> value == 0
      ensures if exists k :: InReach(maps[bin].Keys, key, k) then OffersEnd(maps[bin], key, value) else value == 0
    {
      hide *;
      ChainOf(bin);
      ghost var c, p := chains[bin], 0;
      var node := bins[bin];
      FirstIs(node, c);
      NothingStops(c, key);
      var keylen := |key|;
      while node != null
        invariant node == NodeAt(c, p) && p <= |c| && NoStop(Entries(c), key, p)
        decreases |c| - p
      {
        NextIs(bins[bin], c, p, node);
        StopsHere(node.key, key);
        var len := |node.key|;
        if len >= keylen {
          if len == keylen {
            var cmp := Compare(key, node.key);
            if cmp <= 0 {
              value := if cmp == 0 then node.value else 0;
              found, source := SharedResult(c, maps[bin], key, p);
              if found {
                Offers(maps[bin], key, value, source);
              }
              return;
            }
          } else {
            var cmp := Compare(key, node.key[len - keylen..]);
            if cmp == 0 {
              value := node.value + (len - keylen);
              found, source := SharedResult(c, maps[bin], key, p);
              Offers(maps[bin], key, value, source);
              return;
            }
          }
        }
        OneMoreNoStop(c, key, p);
        node := node.next;
        p := p + 1;
      }
      NextIs(bins[bin], c, p, node);
      FoundNode(c, p, node);
      value := 0;
      found, source := SharedResult(c, maps[bin], key, p);
    }

    lemma CompareMeansEqual(key: Text, node: HashNode?)
      ensures node != null ==> (Compare(key, node.key) == 0 <==> node.key == key)
    {
      if node != null {
        CompareZero(key, node.key);
      }
    }

    /** Sets the value of a key: in its node, or in a new one put where the order wants it. */
    method SetH(key: Text, bin: nat, value: nat)
      requires Valid() && bin < bins.Length
      modifies this`chains, this`maps, this`nodes, bins, nodes
      ensures Valid() && bin < |old(maps)| && maps == old(maps)[bin := SetIn(old(maps[bin]), key, value)]
      ensures fresh(nodes - old(nodes)) && old(nodes) <= nodes
    {
      hide *;
      var last, next, p := Find(key, bin);
      CompareMeansEqual(key, next);
      ChainOf(bin);
      InsertRefines(Entries(chains[bin]), maps[bin], key, value, p);
      if next != null && Compare(key, next.key) == 0 {
        FoundNode(chains[bin], p, next);
        ReplaceNode(bin, p, key, value, next);
      } else {
        FoundNode(chains[bin], p, next);
        AddNode(bin, p, key, value, last, next);
      }
    }

    lemma FoundNode(c: seq<HashNode>, p: nat, node: HashNode?)
      requires p <= |c| && node == NodeAt(c, p)
      ensures if node != null then p < |c| && node == c[p] else p == |c|
    {
    }

    method ReplaceNode(bin: nat, ghost p: nat, ghost key: Text, value: nat, node: HashNode)
      requires Valid() && bin < bins.Length && bin < |chains| && p < |chains[bin]| && node == chains[bin][p] && node.key == key && bin < |maps|
      requires Represents(Inserted(Entries(chains[bin]), key, value, p), SetIn(maps[bin], key, value))
      modifies this`maps, node`value
      ensures Valid() && bin < |old(maps)| && maps == old(maps)[bin := SetIn(old(maps[bin]), key, value)]
    {
      hide *;
      ghost var c, e := chains[bin], Entries(chains[bin]);
      ChainOf(bin);
      AllChains();
      OthersElsewhere(bin, node);
      EntriesAre(c);
      node.value := value;
      EntriesReplaced(c, e, p, value);
      maps := maps[bin := SetIn(maps[bin], key, value)];
      ValidAgain(bin);
    }

    lemma EntriesAre(c: seq<HashNode>)
      ensures |Entries(c)| == |c| && forall i :: 0 <= i < |c| ==> Entries(c)[i] == Entry(c[i].key, c[i].value)
    {
    }

    lemma AllChains()
      requires Valid()
      ensures |chains| == |maps| == bins.Length
      ensures forall b :: 0 <= b < |chains| ==> ChainOk(bins[b], chains[b], maps[b], b)
      ensures forall b, i :: 0 <= b < |chains| && 0 <= i < |chains[b]| ==> chains[b][i] in nodes
    {
    }

    lemma OthersElsewhere(bin: nat, node: HashNode)
      requires Valid() && node.home == bin
      ensures forall b :: 0 <= b < |chains| && b != bin ==> node !in chains[b]
    {
    }

    /** When one chain has been changed and put in order again, the table is valid again. */
    lemma ValidAgain(bin: nat)
      requires bin < |chains| == |maps| == bins.Length
      requires forall b :: 0 <= b < |chains| && b != bin ==> ChainOk(bins[b], chains[b], maps[b], b)
      requires Linked(bins[bin], chains[bin]) && Represents(Entries(chains[bin]), maps[bin])
      requires forall i :: 0 <= i < |chains[bin]| ==> chains[bin][i].home == bin
      requires forall b, i :: 0 <= b < |chains| && 0 <= i < |chains[b]| ==> chains[b][i] in nodes
      ensures Valid()
    {
      hide Linked, Represents, Entries;
    }

    method AddNode(bin: nat, ghost p: nat, key: Text, value: nat, last: HashNode?, next: HashNode?)
      requires Valid() && bin < bins.Length && bin < |chains| && bin < |maps| && p <= |chains[bin]|
      requires next == NodeAt(chains[bin], p) && (if p > 0 then last == chains[bin][p - 1] else last == null)
      requires p < |chains[bin]| ==> chains[bin][p].key != key
      requires Represents(Inserted(Entries(chains[bin]), key, value, p), SetIn(maps[bin], key, value))
      modifies this`chains, this`maps, this`nodes, bins, nodes
      ensures Valid() && bin < |old(maps)| && maps == old(maps)[bin := SetIn(old(maps[bin]), key, value)]
      ensures fresh(nodes - old(nodes)) && old(nodes) <= nodes
    {
      hide *;
      ghost var c, e := chains[bin], Entries(chains[bin]);
      ChainOf(bin);
      AllChains();
      var node := new HashNode(key, value, bin);
      if last != null {
        OthersElsewhere(bin, last);
      }
      LinkIn(bins, bin, last, next, node, c, p);
      EntriesInserted(c, e, p, node);
      Widened(c, p, node, bin, nodes);
      Install(bin, c[..p] + [node] + c[p..], SetIn(maps[bin], key, value), nodes + {node});
    }

    /** Records the chain a bin now has, and the map it represents. */
    ghost method Install(bin: nat, c: seq<HashNode>, m: map<Text, nat>, known: set<HashNode>)
      requires bin < |chains| == |maps| == bins.Length && nodes <= known
      requires forall b :: 0 <= b < |chains| && b != bin ==> ChainOk(bins[b], chains[b], maps[b], b)
      requires Linked(bins[bin], c) && Represents(Entries(c), m)
      requires forall i :: 0 <= i < |c| ==> c[i].home == bin && c[i] in known
      requires forall b, i :: 0 <= b < |chains| && 0 <= i < |chains[b]| ==> chains[b][i] in nodes
      modifies this`chains, this`maps, this`nodes
      ensures Valid() && bin < |old(maps)| && maps == old(maps)[bin := m] && nodes == known
    {
      hide Linked, Represents, Entries;
      chains, maps, nodes := chains[bin := c], maps[bin := m], known;
    }

    lemma Widened(c: seq<HashNode>, p: nat, node: HashNode, bin: nat, known: set<HashNode>)
      requires p <= |c| && node.home == bin && forall i :: 0 <= i < |c| ==> c[i].home == bin && c[i] in known
      ensures var c2 := c[..p] + [node] + c[p..];
        forall i :: 0 <= i < |c2| ==> c2[i].home == bin && c2[i] in known + {node}
    {
    }

    /** Removes a key: its node is taken out of the chain. */
    method RemoveH(key: Text, bin: nat)
      requires Valid() && bin < bins.Length
      modifies this`chains, this`maps, bins, nodes
      ensures Valid() && bin < |old(maps)| && maps == old(maps)[bin := old(maps[bin]) - {key}]
    {
      hide *;
      var last, node, p := Find(key, bin);
      CompareMeansEqual(key, node);
      ChainOf(bin);
      DeleteRefines(Entries(chains[bin]), maps[bin], key, p);
      LookupRefines(Entries(chains[bin]), maps[bin], key, p);
      FoundNode(chains[bin], p, node);
      EntriesAre(chains[bin]);
      if node == null || Compare(key, node.key) != 0 {
        RemovedNothing(maps[bin], key);
        return;
      }
      TakeOut(bin, p, key, last, node);
    }

    lemma RemovedNothing(m: map<Text, nat>, key: Text)
      requires key !in m
      ensures m - {key} == m
    {
    }

    method TakeOut(bin: nat, ghost p: nat, ghost key: Text, last: HashNode?, node: HashNode)
      requires Valid() && bin < bins.Length && bin < |chains| && bin < |maps| && p < |chains[bin]|
      requires node == chains[bin][p] && node.key == key && (if p > 0 then last == chains[bin][p - 1] else last == null)
      requires Represents(Deleted(Entries(chains[bin]), key, p), maps[bin] - {key})
      modifies this`chains, this`maps, bins, nodes
      ensures Valid() && bin < |old(maps)| && maps == old(maps)[bin := old(maps[bin]) - {key}]
    {
      hide *;
      ghost var c, e := chains[bin], Entries(chains[bin]);
      ChainOf(bin);
      AllChains();
      if last != null {
        OthersElsewhere(bin, last);
      }
      Unlink(bins, bin, last, node, c, p);
      EntriesDeleted(c, e, p);
      chains := chains[bin := c[..p] + c[p + 1..]];
      maps := maps[bin := maps[bin] - {key}];
      ValidAgain(bin);
    }
  }
}
