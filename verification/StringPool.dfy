// The pool of string constants, and the cache by which equal strings, and
// strings that are the end of another, are stored once.

module StringPool {
  import opened Wrappers
  import opened Texts
  import opened Chains
  import opened HashTable

  predicate NulFree(s: Text) {
    forall i :: 0 <= i < |s| ==> s[i] != 0
  }

  /** Reading at the offset up to the first zero gives exactly s. */
  predicate ReadsAs(chars: seq<byte>, at: nat, s: Text) {
    NulFree(s) && at + |s| < |chars| && chars[at..at + |s|] == s && chars[at + |s|] == 0
  }

  lemma ByteRead(chars: seq<byte>, at: nat, s: Text, i: nat)
    requires ReadsAs(chars, at, s) && i < |s|
    ensures at + i < |chars| && chars[at + i] != 0
  {
    assert s[i] == chars[at..at + |s|][i];
  }

  /** There is only one such string. */
  lemma ReadsAsOne(chars: seq<byte>, at: nat, s: Text, t: Text)
    requires ReadsAs(chars, at, s) && ReadsAs(chars, at, t)
    ensures s == t
  {
    if |s| < |t| {
      ByteRead(chars, at, t, |s|);
    } else if |t| < |s| {
      ByteRead(chars, at, s, |t|);
    }
  }

  lemma ReadsLater(chars: seq<byte>, later: seq<byte>, at: nat, s: Text)
    requires ReadsAs(chars, at, s) && chars <= later
    ensures ReadsAs(later, at, s)
  {
    assert later[at..at + |s|] == chars[at..at + |s|];
  }

  /** The end of a stored string is stored with it. */
  lemma ReadsEnd(chars: seq<byte>, at: nat, t: Text, s: Text)
    requires ReadsAs(chars, at, t) && EndsWith(t, s)
    ensures ReadsAs(chars, at + (|t| - |s|), s)
  {
    var d := |t| - |s|;
    assert chars[at..at + |t|][d..] == chars[at + d..at + |t|];
    forall i | 0 <= i < |s| ensures s[i] != 0 {
      assert s[i] == t[d + i];
    }
  }

  lemma ReadsAppended(chars: seq<byte>, s: Text)
    requires NulFree(s)
    ensures ReadsAs(chars + s + [0], |chars|, s)
  {
  }

  /** What a chain of the cache says is what the pool holds. */
  predicate Sound(m: map<Text, nat>, chars: seq<byte>) {
    forall k :: k in m ==> k != [] && m[k] > 0 && ReadsAs(chars, m[k], k)
  }

  lemma SoundLater(m: map<Text, nat>, chars: seq<byte>, later: seq<byte>)
    requires Sound(m, chars) && chars <= later
    ensures Sound(m, later)
  {
    forall k | k in m ensures ReadsAs(later, m[k], k) {
      ReadsLater(chars, later, m[k], k);
    }
  }

  /** Keys stay where they are, with the values they have. */
  predicate Keeps(maps: seq<map<Text, nat>>, later: seq<map<Text, nat>>) {
    |later| == |maps| && forall b, k :: 0 <= b < |maps| && k in maps[b] ==> k in later[b] && later[b][k] == maps[b][k]
  }

  lemma KeepsOn(a: seq<map<Text, nat>>, b: seq<map<Text, nat>>, c: seq<map<Text, nat>>)
    requires Keeps(a, b) && Keeps(b, c)
    ensures Keeps(a, c)
  {
  }

  lemma KeepsInserted(a: seq<map<Text, nat>>, b: nat, s: Text, value: nat)
    requires b < |a| && s !in a[b]
    ensures Keeps(a, a[b := SetIn(a[b], s, value)])
  {
  }

  lemma LongerBy(chars: seq<byte>, s: Text)
    ensures chars + s + [0] != chars
  {
    assert |chars + s + [0]| > |chars|;
  }

  lemma KeepsKeys(a: seq<map<Text, nat>>, b: seq<map<Text, nat>>, bin: nat)
    requires Keeps(a, b) && bin < |a|
    ensures |a| == |b| && a[bin].Keys <= b[bin].Keys
  {
  }

  lemma KeysInserted(m: map<Text, nat>, s: Text, value: nat)
    ensures SetIn(m, s, value).Keys == m.Keys + {s}
  {
  }

  lemma KeepsSame(a: seq<map<Text, nat>>)
    ensures Keeps(a, a)
  {
  }

  /** A greater string than s, as long as s, comes in front of k. */
  predicate Behind(keys: set<Text>, s: Text, k: Text) {
    exists x :: x in keys && |x| == |s| && Compare(s, x) < 0 && Compare(x, k) < 0
  }

  /** That goes for every stored string that ends in s. */
  predicate Overtaken(keys: set<Text>, s: Text) {
    forall k :: k in keys && EndsWith(k, s) ==> Behind(keys, s, k)
  }

  lemma BehindIff(keys: set<Text>, s: Text, k: Text)
    requires k in keys && EndsWith(k, s)
    ensures Behind(keys, s, k) <==> !InReach(keys, s, k)
  {
    forall x | x in keys && |x| == |s| && Compare(s, x) < 0 ensures Compare(x, k) < 0 <==> !(Compare(k, x) < 0) {
      CompareFlips(x, k);
      CompareZero(x, k);
      CompareZero(s, x);
      assert k == x ==> k[|k| - |s|..] == x;
    }
  }

  lemma OvertakenIff(keys: set<Text>, s: Text)
    ensures Overtaken(keys, s) <==> !exists k :: InReach(keys, s, k)
  {
    forall k | k in keys && EndsWith(k, s) ensures Behind(keys, s, k) <==> !InReach(keys, s, k) {
      BehindIff(keys, s, k);
    }
    hide Behind, EndsWith;
  }

  class Pool {
    const overlap: bool
    const hash: Text -> nat
    const cache: Table
    var chars: seq<byte>
    var cachedEmpty: nat

    ghost predicate Valid()
      reads this, cache, cache.bins, cache.nodes
    {
      && cache.Valid() && cache.bins.Length == (if overlap then 0x100 else 1024) && |cache.maps| == cache.bins.Length
      && (forall b :: 0 <= b < |cache.maps| ==> Sound(cache.maps[b], chars))
      && chars != [] && (cachedEmpty != 0 ==> ReadsAs(chars, cachedEmpty, []))
    }

    constructor (overlap: bool, hash: Text -> nat)
      ensures Valid() && fresh(cache) && fresh(cache.bins) && fresh(cache.nodes)
      ensures this.overlap == overlap && this.hash == hash && chars == [0] && cachedEmpty == 0
      ensures forall b :: 0 <= b < |cache.maps| ==> cache.maps[b] == map[]
    {
      this.overlap, this.hash := overlap, hash;
      cache := new Table(if overlap then 0x100 else 1024);
      chars, cachedEmpty := [0], 0;
    }

    /** Strings that may share their ends have the same last byte, and so the same bin. */
    function BinOf(s: Text): (b: nat)
      requires s != []
      ensures b < if overlap then 0x100 else 1024
    {
      if overlap then s[|s| - 1] as nat else hash(s) % 1024
    }

    /** Whether the cache will yield an offset for the string. */
    ghost predicate Findable(s: Text)
      requires s != []
      reads this, cache
    {
      BinOf(s) < |cache.maps| &&
      if overlap then exists k :: InReach(cache.maps[BinOf(s)].Keys, s, k) else s in cache.maps[BinOf(s)]
    }

    ghost predicate Stored(s: Text)
      requires s != []
      reads this, cache
    {
      BinOf(s) < |cache.maps| && s in cache.maps[BinOf(s)]
    }

    /** A string that is stored itself is found in both modes. */
    lemma StoredIsFindable(s: Text)
      requires s != [] && Stored(s)
      ensures Findable(s)
    {
      if overlap {
        KeyInReach(cache.maps[BinOf(s)].Keys, s);
      }
    }

    method Lookup(s: Text, bin: nat) returns (value: nat)
      requires Valid() && s != [] && bin == BinOf(s)
      ensures value != 0 <==> Findable(s)
      ensures value != 0 ==> ReadsAs(chars, value, s)
      ensures value != 0 && !overlap ==> Stored(s) && value == cache.maps[bin][s]
    {
      hide Represents, InReach, IsPosition, Linked;
      if overlap {
        ghost var found, source;
        value, found, source := cache.GetShared(s, bin);
        if found {
          assert Sound(cache.maps[bin], chars);
          ReadsEnd(chars, cache.maps[bin][source], source, s);
        }
      } else {
        value := cache.GetH(s, bin);
        assert Sound(cache.maps[bin], chars);
      }
    }

    /** The offset of a string: of the stored one if it is found, or else of a new one at the end of the pool. */
    method GenString(str: Option<Text>) returns (offset: nat)
      requires Valid() && (str.Some? ==> NulFree(str.value))
      modifies this`chars, this`cachedEmpty, cache`chains, cache`maps, cache`nodes, cache.bins, cache.nodes
      ensures Valid() && fresh(cache.nodes - old(cache.nodes)) && old(chars) <= chars
      ensures str.None? ==> offset == 0 && chars == old(chars) && cache.maps == old(cache.maps)
      ensures str.Some? ==> offset > 0 && ReadsAs(chars, offset, str.value)
      ensures str == Some([]) ==> cache.maps == old(cache.maps) && cachedEmpty == offset
      ensures str == Some([]) && old(cachedEmpty) != 0 ==> offset == old(cachedEmpty)
      ensures str == Some([]) ==> chars == if old(cachedEmpty) != 0 then old(chars) else old(chars) + [0]
      ensures str.Some? && str.value != [] ==> cachedEmpty == old(cachedEmpty)
      ensures str.Some? && str.value != [] && !overlap ==> Stored(str.value) && offset == cache.maps[BinOf(str.value)][str.value]
      ensures str.Some? && str.value != [] ==>
                if old(Findable(str.value)) then chars == old(chars) && cache.maps == old(cache.maps)
                else
                  && chars == old(chars) + str.value + [0] && offset == |old(chars)| && BinOf(str.value) < |old(cache.maps)|
                  && cache.maps == old(cache.maps)[BinOf(str.value) := SetIn(old(cache.maps)[BinOf(str.value)], str.value, offset)]
    {
      if str.None? {
        return 0;
      }
      var s := str.value;
      if s == [] {
        if cachedEmpty == 0 {
          cachedEmpty := |chars|;
          ReadsAppended(chars, s);
          assert chars + s + [0] == chars + [0];
          chars := chars + [0];
          forall b | 0 <= b < |cache.maps| ensures Sound(cache.maps[b], chars) {
            SoundLater(cache.maps[b], old(chars), chars);
          }
        }
        return cachedEmpty;
      }
      var bin := BinOf(s);
      var existing := Lookup(s, bin);
      if existing != 0 {
        return existing;
      }
      offset := |chars|;
      AddString(s, bin);
    }

    method AddString(s: Text, bin: nat)
      requires Valid() && s != [] && NulFree(s) && bin == BinOf(s)
      modifies this`chars, cache`chains, cache`maps, cache`nodes, cache.bins, cache.nodes
      ensures Valid() && fresh(cache.nodes - old(cache.nodes)) && bin < |old(cache.maps)|
      ensures chars == old(chars) + s + [0] && ReadsAs(chars, |old(chars)|, s)
      ensures cache.maps == old(cache.maps)[bin := SetIn(old(cache.maps)[bin], s, |old(chars)|)]
    {
      hide *;
      ghost var before, maps := chars, cache.maps;
      var offset := |chars|;
      PartsValid();
      BinFits(s);
      chars := chars + s + [0];
      ReadsAppended(before, s);
      cache.SetH(s, bin, offset);
      AllSound(maps, before, s, bin);
      if cachedEmpty != 0 {
        ReadsLater(before, chars, cachedEmpty, []);
      }
      ValidIs();
    }

    lemma BinFits(s: Text)
      requires s != []
      ensures BinOf(s) < if overlap then 0x100 else 1024
    {
    }

    lemma PartsValid()
      requires Valid()
      ensures cache.Valid() && cache.bins.Length == |cache.maps| == (if overlap then 0x100 else 1024)
      ensures forall b :: 0 <= b < |cache.maps| ==> Sound(cache.maps[b], chars)
      ensures chars != [] && (cachedEmpty != 0 ==> ReadsAs(chars, cachedEmpty, []))
    {
    }

    lemma ValidIs()
      requires cache.Valid() && cache.bins.Length == |cache.maps| == (if overlap then 0x100 else 1024)
      requires forall b :: 0 <= b < |cache.maps| ==> Sound(cache.maps[b], chars)
      requires chars != [] && (cachedEmpty != 0 ==> ReadsAs(chars, cachedEmpty, []))
      ensures Valid()
    {
    }

    lemma AllSound(maps: seq<map<Text, nat>>, before: seq<byte>, s: Text, bin: nat)
      requires forall b :: 0 <= b < |maps| ==> Sound(maps[b], before)
      requires bin < |maps| && s != [] && before != [] && ReadsAs(before + s + [0], |before|, s)
      requires chars == before + s + [0] && cache.maps == maps[bin := SetIn(maps[bin], s, |before|)]
      ensures forall b :: 0 <= b < |cache.maps| ==> Sound(cache.maps[b], chars)
      ensures before <= chars
    {
      forall b | 0 <= b < |cache.maps| ensures Sound(cache.maps[b], chars) {
        hide ReadsAs;
        SoundLater(maps[b], before, chars);
      }
    }

    /** What a call leaves in the cache: everything that was there, and without overlapping the string itself. */
    method Intern(s: Text) returns (offset: nat)
      requires Valid() && NulFree(s)
      modifies this`chars, this`cachedEmpty, cache`chains, cache`maps, cache`nodes, cache.bins, cache.nodes
      ensures Valid() && fresh(cache.nodes - old(cache.nodes)) && old(chars) <= chars && Keeps(old(cache.maps), cache.maps)
      ensures offset > 0 && ReadsAs(chars, offset, s)
      ensures s != [] && (!overlap || !old(Findable(s))) ==> Stored(s)
      ensures s != [] ==> (chars == old(chars) <==> old(Findable(s)))
      ensures s != [] && old(Findable(s)) ==> cache.maps == old(cache.maps)
      ensures s != [] && !old(Findable(s)) ==>
                && chars == old(chars) + s + [0] && offset == |old(chars)| && BinOf(s) < |old(cache.maps)|
                && cache.maps == old(cache.maps)[BinOf(s) := SetIn(old(cache.maps)[BinOf(s)], s, offset)]
      ensures s == [] ==> cachedEmpty == offset && (old(cachedEmpty) != 0 ==> offset == old(cachedEmpty) && chars == old(chars))
      ensures s != [] ==> cachedEmpty == old(cachedEmpty)
      ensures s != [] && !overlap ==> offset == cache.maps[BinOf(s)][s]
    {
      hide *;
      ghost var maps := cache.maps;
      KeepsSame(maps);
      if s == [] {
        offset := GenString(Some(s));
      } else {
        ghost var findable := Findable(s);
        if !findable {
          NotStored(s);
        }
        offset := GenString(Some(s));
        if !findable {
          KeepsInserted(maps, BinOf(s), s, offset);
          NowStored(maps, s, offset);
          LongerBy(old(chars), s);
        }
      }
    }

    lemma NotStored(s: Text)
      requires s != [] && !Findable(s)
      ensures BinOf(s) < |cache.maps| ==> s !in cache.maps[BinOf(s)]
    {
      if Stored(s) {
        StoredIsFindable(s);
      }
    }

    lemma NowStored(maps: seq<map<Text, nat>>, s: Text, offset: nat)
      requires s != [] && BinOf(s) < |maps| && cache.maps == maps[BinOf(s) := SetIn(maps[BinOf(s)], s, offset)]
      ensures Stored(s)
    {
    }

    /** Any sequence of calls: every offset handed out still reads back as its string at the end. */
    method InternAll(strs: seq<Text>) returns (offsets: seq<nat>)
      requires Valid() && forall i :: 0 <= i < |strs| ==> NulFree(strs[i])
      modifies this`chars, this`cachedEmpty, cache`chains, cache`maps, cache`nodes, cache.bins, cache.nodes
      ensures Valid() && fresh(cache.nodes - old(cache.nodes)) && old(chars) <= chars && |offsets| == |strs|
      ensures forall i :: 0 <= i < |strs| ==> offsets[i] > 0 && ReadsAs(chars, offsets[i], strs[i])
      ensures Keeps(old(cache.maps), cache.maps) && (old(cachedEmpty) != 0 ==> cachedEmpty == old(cachedEmpty))
    {
      hide Valid, ReadsAs, Findable, Stored, Keeps;
      offsets := [];
      KeepsSame(cache.maps);
      var i := 0;
      while i < |strs|
        invariant i == |offsets| <= |strs|
        invariant Valid() && old(chars) <= chars && fresh(cache.nodes - old(cache.nodes))
        invariant Keeps(old(cache.maps), cache.maps) && (old(cachedEmpty) != 0 ==> cachedEmpty == old(cachedEmpty))
        invariant forall j :: 0 <= j < i ==> offsets[j] > 0 && ReadsAs(chars, offsets[j], strs[j])
      {
        ghost var before, maps := chars, cache.maps;
        var o := Intern(strs[i]);
        KeepsOn(old(cache.maps), maps, cache.maps);
        forall j | 0 <= j < i ensures ReadsAs(chars, offsets[j], strs[j]) {
          ReadsLater(before, chars, offsets[j], strs[j]);
        }
        offsets := offsets + [o];
        i := i + 1;
      }
    }

    /** Without overlapping, interning a string again never grows the pool and gives the offset it gave before. */
    method InternAgain(s: Text, between: seq<Text>) returns (first: nat, second: nat, ghost pool: seq<byte>)
      requires Valid() && !overlap && NulFree(s) && forall i :: 0 <= i < |between| ==> NulFree(between[i])
      modifies this`chars, this`cachedEmpty, cache`chains, cache`maps, cache`nodes, cache.bins, cache.nodes
      ensures Valid() && second == first && chars == pool && ReadsAs(pool, first, s)
    {
      first := Intern(s);
      ghost var maps := cache.maps;
      var offsets := InternAll(between);
      pool := chars;
      if s != [] {
        StoredIsFindable(s);
      }
      second := Intern(s);
      hide Valid, ReadsAs;
    }

    lemma FindableUnlessOvertaken(s: Text)
      requires Valid() && overlap && s != []
      ensures BinOf(s) < |cache.maps| && (Findable(s) <==> !Overtaken(cache.maps[BinOf(s)].Keys, s))
    {
      OvertakenIff(cache.maps[BinOf(s)].Keys, s);
      hide Overtaken, InReach;
    }

    lemma StoredIs(s: Text)
      requires s != [] && Stored(s)
      ensures BinOf(s) < |cache.maps| && s in cache.maps[BinOf(s)]
    {
    }

    lemma StoredStays(s: Text, maps: seq<map<Text, nat>>)
      requires s != [] && BinOf(s) < |maps| && s in maps[BinOf(s)] && Keeps(maps, cache.maps)
      ensures Findable(s)
    {
      StoredIsFindable(s);
    }

    /**
     * With overlapping it grows the pool, by the whole string, if and only if a greater string as long has come in front
     * of every stored string with that end, so never if the string was stored itself. keys are the keys stored by then.
     */
    method InternAgainShared(s: Text, between: seq<Text>)
      returns (first: nat, second: nat, ghost pool: seq<byte>, ghost keys: set<Text>)
      requires Valid() && overlap && s != [] && NulFree(s) && forall i :: 0 <= i < |between| ==> NulFree(between[i])
      modifies this`chars, this`cachedEmpty, cache`chains, cache`maps, cache`nodes, cache.bins, cache.nodes
      ensures Valid() && ReadsAs(pool, first, s) && ReadsAs(chars, second, s) && BinOf(s) < |cache.maps| == |old(cache.maps)|
      ensures old(cache.maps)[BinOf(s)].Keys <= keys
      ensures if Overtaken(keys, s) then chars == pool + s + [0] && second == |pool| && cache.maps[BinOf(s)].Keys == keys + {s}
              else chars == pool && cache.maps[BinOf(s)].Keys == keys
      ensures !old(Findable(s)) ==> !Overtaken(keys, s)
    {
      hide *;
      FindableUnlessOvertaken(s);
      ghost var maps0 := cache.maps;
      ghost var findable := Findable(s);
      first := Intern(s);
      ghost var chars1, maps1 := chars, cache.maps;
      if !findable {
        StoredIs(s);
      }
      var offsets := InternAll(between);
      pool := chars;
      ReadsLater(chars1, pool, first, s);
      FindableUnlessOvertaken(s);
      KeepsOn(maps0, maps1, cache.maps);
      KeepsKeys(maps0, cache.maps, BinOf(s));
      keys := cache.maps[BinOf(s)].Keys;
      if !findable {
        StoredStays(s, maps1);
      }
      ghost var maps := cache.maps;
      second := Intern(s);
      KeysInserted(maps[BinOf(s)], s, second);
    }

    /** Looking for a shared end depends on the keys of one chain only. */
    lemma FindableIs(s: Text, keys: set<Text>)
      requires overlap && s != [] && BinOf(s) < |cache.maps| && cache.maps[BinOf(s)].Keys == keys
      ensures Findable(s) <==> exists k :: InReach(keys, s, k)
    {
    }

    /** With overlapping this fails: a string that shares the end of another one is stored once more after a greater one as long. */
    method Regrows() returns (first: nat, second: nat, ghost pool: seq<byte>)
      requires Valid() && overlap && chars == [0] && forall b :: 0 <= b < |cache.maps| ==> cache.maps[b] == map[]
      modifies this`chars, this`cachedEmpty, cache`chains, cache`maps, cache`nodes, cache.bins, cache.nodes
      ensures Valid() && ReadsAs(pool, first, AB) && second == |pool| && chars == pool + AB + [0]
    {
      hide Valid, ReadsAs, Findable, EndsWith, Compare, InReach;
      Ends();
      ghost var m := cache.maps;
      assert BinOf(ZAB) == BinOf(AB) == BinOf(CB) == 98;
      BinsKnown();
      FindableIs(ZAB, {});
      NothingInReach(ZAB);
      var a := GenString(Some(ZAB));
      assert cache.maps[98].Keys == {ZAB};
      FindableIs(AB, {ZAB});
      OnlyKeyInReach(ZAB, AB);
      first := GenString(Some(AB));
      ghost var shared := chars;
      FindableIs(CB, {ZAB});
      KeyOutOfReach({ZAB}, CB);
      var c := GenString(Some(CB));
      assert cache.maps[98].Keys == {ZAB, CB};
      pool := chars;
      ReadsLater(shared, pool, first, AB);
      FindableIs(AB, {ZAB, CB});
      HiddenBehind();
      second := GenString(Some(AB));
    }

    lemma BinsKnown()
      requires Valid() && overlap
      ensures |cache.maps| == 0x100
    {
    }
  }

  const AB: Text := [97, 98]
  const CB: Text := [99, 98]
  const ZAB: Text := [122, 97, 98]

  lemma Ends()
    ensures NulFree(AB) && NulFree(CB) && NulFree(ZAB)
  {
  }

  lemma NothingInReach(s: Text)
    ensures !exists k :: InReach({}, s, k)
  {
  }

  lemma OnlyKeyInReach(k: Text, s: Text)
    requires k == ZAB && s == AB
    ensures exists x :: InReach({k}, s, x)
  {
    assert ZAB[|ZAB| - |AB|..] == AB;
    assert InReach({k}, s, k);
  }

  lemma KeyOutOfReach(keys: set<Text>, s: Text)
    requires keys == {ZAB} && s == CB
    ensures !exists k :: InReach(keys, s, k)
  {
    assert ZAB[|ZAB| - |CB|..] == AB != CB;
  }

  /** "zab" ends in "ab", but "cb" is as long as "ab", greater than it and not greater than "zab", so the search stops there. */
  lemma HiddenBehind()
    ensures EndsWith(ZAB, AB) && !exists k :: InReach({ZAB, CB}, AB, k)
  {
    assert ZAB[|ZAB| - |AB|..] == AB;
    assert CB[|CB| - |AB|..] == CB != AB;
    assert Compare(AB, CB) == -1 && Compare(ZAB, CB) == 1;
  }
}
