/**
 * The regrouping of a file's chunks into output order (src/main.rs:109-175):
 * chunks with a `NoDoc` attribute are dropped, the rest are split into
 * owners (chunks with a `Class` attribute) and members, every member is put
 * in the bucket of the owner whose name it declares (or in the `_NO_NAME`
 * bucket), and the output is each named owner followed by its bucket, then
 * the `_NO_NAME` bucket. Chunks are named by their index in the file's
 * chunk list.
 */
module Grouping {
  import opened Wrappers
  import opened Text
  import opened Failures
  import opened Attr
  import opened Decl
  import opened Chunks

  /** The key of the fallback bucket (src/main.rs:125). */
  const NoName: string := "_NO_NAME"

  predicate HasNoDoc(c: Chunk) {
    exists k :: 0 <= k < |c.attributes| && c.attributes[k].NoDoc?
  }

  predicate IsOwner(c: Chunk) {
    exists k :: 0 <= k < |c.attributes| && c.attributes[k].Class?
  }

  /** Every index in `xs` names a chunk of `cs`. */
  predicate Indices(cs: seq<Chunk>, xs: seq<nat>) {
    forall i :: 0 <= i < |xs| ==> xs[i] < |cs|
  }

  /** The indices below `n` of the chunks without `NoDoc`, in order. */
  function Survivors(cs: seq<Chunk>, n: nat): (r: seq<nat>)
    requires n <= |cs|
    ensures forall i :: 0 <= i < |r| ==> r[i] < n
    ensures forall i, j :: 0 <= i < j < |r| ==> r[i] < r[j]
    ensures forall x: nat :: x in r <==> x < n && !HasNoDoc(cs[x])
  {
    if n == 0 then []
    else if HasNoDoc(cs[n - 1]) then Survivors(cs, n - 1)
    else Survivors(cs, n - 1) + [n - 1]
  }

  /** The surviving owners below `n`, in order: the first half of the filter and partition of src/main.rs:109-122. */
  function Owners(cs: seq<Chunk>, n: nat): (r: seq<nat>)
    requires n <= |cs|
    ensures forall i :: 0 <= i < |r| ==> r[i] < n
  {
    if n == 0 then []
    else if !HasNoDoc(cs[n - 1]) && IsOwner(cs[n - 1]) then Owners(cs, n - 1) + [n - 1]
    else Owners(cs, n - 1)
  }

  /** The surviving non-owners below `n`, in order: the second half of that partition. */
  function Rest(cs: seq<Chunk>, n: nat): (r: seq<nat>)
    requires n <= |cs|
    ensures forall i :: 0 <= i < |r| ==> r[i] < n
  {
    if n == 0 then []
    else if !HasNoDoc(cs[n - 1]) && !IsOwner(cs[n - 1]) then Rest(cs, n - 1) + [n - 1]
    else Rest(cs, n - 1)
  }

  /** The names of the named chunks among `os`. */
  function OwnerNames(cs: seq<Chunk>, os: seq<nat>): (r: set<string>)
    requires Indices(cs, os)
    ensures forall i :: 0 <= i < |os| && DeclName(cs[os[i]].decl).Some? ==> DeclName(cs[os[i]].decl).value in r
  {
    if os == [] then {}
    else
      match DeclName(cs[os[|os| - 1]].decl)
      case Some(name) => OwnerNames(cs, os[..|os| - 1]) + {name}
      case None => OwnerNames(cs, os[..|os| - 1])
  }

  /** The keys of the bucket map once every owner is entered (src/main.rs:124-135). */
  function Keys(cs: seq<Chunk>): set<string> {
    {NoName} + OwnerNames(cs, Owners(cs, |cs|))
  }

  /** The bucket a member goes to: its own name when that is a key, else `_NO_NAME` (src/main.rs:137-149). */
  function KeyOf(cs: seq<Chunk>, keys: set<string>, x: nat): (r: string)
    requires x < |cs|
    ensures r == NoName || DeclName(cs[x].decl) == Some(r)
    ensures NoName in keys ==> r in keys
  {
    match DeclName(cs[x].decl)
    case Some(name) => if name in keys then name else NoName
    case None => NoName
  }

  /** The members of `rs` whose bucket is in `ks`, in order. */
  function KeyIn(cs: seq<Chunk>, keys: set<string>, rs: seq<nat>, ks: set<string>): (r: seq<nat>)
    requires Indices(cs, rs)
    ensures |r| <= |rs|
  {
    if rs == [] then []
    else
      if KeyOf(cs, keys, rs[|rs| - 1]) in ks then KeyIn(cs, keys, rs[..|rs| - 1], ks) + [rs[|rs| - 1]]
      else KeyIn(cs, keys, rs[..|rs| - 1], ks)
  }

  /** The contents of bucket `key`: the members of `rs` that go there, in order. */
  function Bucket(cs: seq<Chunk>, keys: set<string>, rs: seq<nat>, key: string): seq<nat>
    requires Indices(cs, rs)
  {
    KeyIn(cs, keys, rs, {key})
  }

  /** Each named owner of `os` followed by its bucket; unnamed owners are skipped (src/main.rs:156-171). */
  function Sections(cs: seq<Chunk>, keys: set<string>, os: seq<nat>, rs: seq<nat>): seq<nat>
    requires Indices(cs, os) && Indices(cs, rs)
  {
    if os == [] then []
    else
      match DeclName(cs[os[|os| - 1]].decl)
      case Some(name) => Sections(cs, keys, os[..|os| - 1], rs) + ([os[|os| - 1]] + Bucket(cs, keys, rs, name))
      case None => Sections(cs, keys, os[..|os| - 1], rs)
  }

  /** The output order of the chunks of one file. */
  function RegroupSpec(cs: seq<Chunk>): seq<nat> {
    var rs := Rest(cs, |cs|);
    Sections(cs, Keys(cs), Owners(cs, |cs|), rs) + Bucket(cs, Keys(cs), rs, NoName)
  }

  /** A map from every key in `keys` to the empty bucket. */
  function EmptyBuckets(keys: set<string>): map<string, seq<nat>> {
    map k | k in keys :: []
  }

  /** The bucket map with `_NO_NAME` and every named owner, all empty (src/main.rs:124-135). */
  method SeedBuckets(cs: seq<Chunk>, owners: seq<nat>) returns (methods: map<string, seq<nat>>)
    requires Indices(cs, owners)
    ensures methods == EmptyBuckets({NoName} + OwnerNames(cs, owners))
  {
    methods := map[NoName := []];
    for j := 0 to |owners|
      invariant methods == EmptyBuckets({NoName} + OwnerNames(cs, owners[..j]))
    {
      SeedStep(cs, owners[..j], owners[j]);
      assert owners[..j + 1] == owners[..j] + [owners[j]];
      match DeclName(cs[owners[j]].decl) {
        case Some(name) =>
          methods := methods[name := []];
        case None =>
      }
    }
    assert owners[..|owners|] == owners;
  }

  /** Every member pushed onto the bucket of its name, or onto `_NO_NAME` (src/main.rs:137-149). */
  method AssignMembers(cs: seq<Chunk>, rest: seq<nat>, buckets: map<string, seq<nat>>)
    returns (methods: map<string, seq<nat>>)
    requires Indices(cs, rest) && NoName in buckets
    requires forall key :: key in buckets ==> buckets[key] == []
    ensures methods.Keys == buckets.Keys
    ensures forall key :: key in buckets ==> methods[key] == Bucket(cs, buckets.Keys, rest, key)
  {
    ghost var keys := buckets.Keys;
    methods := buckets;
    for j := 0 to |rest|
      invariant methods.Keys == keys
      invariant forall key :: key in keys ==> methods[key] == Bucket(cs, keys, rest[..j], key)
    {
      var x := rest[j];
      AssignStep(cs, keys, rest[..j], x);
      assert rest[..j + 1] == rest[..j] + [x];
      match DeclName(cs[x].decl) {
        case Some(name) =>
          if name in methods {
            methods := methods[name := methods[name] + [x]];
          } else {
            methods := methods[NoName := methods[NoName] + [x]];
          }
        case None =>
          methods := methods[NoName := methods[NoName] + [x]];
      }
    }
    assert rest[..|rest|] == rest;
  }

  /** The output order: each named owner and its bucket, then `_NO_NAME` (src/main.rs:156-175). */
  method Serialise(cs: seq<Chunk>, owners: seq<nat>, rest: seq<nat>, methods: map<string, seq<nat>>)
    returns (order: seq<nat>)
    requires Indices(cs, owners) && Indices(cs, rest) && NoName in methods
    requires forall key :: key in methods ==> methods[key] == Bucket(cs, methods.Keys, rest, key)
    requires forall j :: 0 <= j < |owners| && DeclName(cs[owners[j]].decl).Some? ==>
      DeclName(cs[owners[j]].decl).value in methods
    ensures order == Sections(cs, methods.Keys, owners, rest) + Bucket(cs, methods.Keys, rest, NoName)
  {
    order := [];
    for j := 0 to |owners|
      invariant order == Sections(cs, methods.Keys, owners[..j], rest)
    {
      var o := owners[j];
      assert owners[..j + 1][..j] == owners[..j];
      match DeclName(cs[o].decl) {
        case Some(name) =>
          order := order + [o];
          if name in methods {
            order := order + methods[name];
          }
        case None =>
      }
    }
    assert owners[..|owners|] == owners;
    order := order + methods[NoName];
  }

  /** The regrouping of src/main.rs:109-175, step by step. */
  method Regroup(cs: seq<Chunk>) returns (order: seq<nat>)
    ensures order == RegroupSpec(cs)
  {
    var owners, rest := Owners(cs, |cs|), Rest(cs, |cs|);
    var methods := SeedBuckets(cs, owners);
    assert methods.Keys == Keys(cs);
    methods := AssignMembers(cs, rest, methods);
    order := Serialise(cs, owners, rest, methods);
  }

  /** Entering one more owner adds its name, if it has one, with an empty bucket. */
  lemma SeedStep(cs: seq<Chunk>, os: seq<nat>, o: nat)
    requires Indices(cs, os) && o < |cs|
    ensures Indices(cs, os + [o])
    ensures EmptyBuckets({NoName} + OwnerNames(cs, os + [o])) ==
      match DeclName(cs[o].decl)
      case Some(name) => EmptyBuckets({NoName} + OwnerNames(cs, os))[name := []]
      case None => EmptyBuckets({NoName} + OwnerNames(cs, os))
  {
    assert (os + [o])[..|os|] == os;
  }

  /** Assigning one more member appends it to its own bucket and to no other. */
  lemma AssignStep(cs: seq<Chunk>, keys: set<string>, rs: seq<nat>, x: nat)
    requires Indices(cs, rs) && x < |cs|
    ensures Indices(cs, rs + [x])
    ensures forall key ::
      Bucket(cs, keys, rs + [x], key) == Bucket(cs, keys, rs, key) + (if KeyOf(cs, keys, x) == key then [x] else [])
    ensures Bucket(cs, keys, rs + [x], KeyOf(cs, keys, x)) == Bucket(cs, keys, rs, KeyOf(cs, keys, x)) + [x]
  {
    assert (rs + [x])[..|rs|] == rs;
  }

  // ---- what the regrouping keeps, drops and repeats ----

  /** `Owners` and `Rest` split the survivors by whether they carry a `Class` attribute. */
  lemma {:induction false} PartitionMembers(cs: seq<Chunk>, n: nat)
    requires n <= |cs|
    ensures forall x: nat :: x in Owners(cs, n) <==> x < n && !HasNoDoc(cs[x]) && IsOwner(cs[x])
    ensures forall x: nat :: x in Rest(cs, n) <==> x < n && !HasNoDoc(cs[x]) && !IsOwner(cs[x])
  {
    if n > 0 {
      PartitionMembers(cs, n - 1);
    }
  }

  /** Together `Owners` and `Rest` hold each survivor exactly once. */
  lemma {:induction false} PartitionIsPermutation(cs: seq<Chunk>, n: nat)
    requires n <= |cs|
    ensures multiset(Owners(cs, n)) + multiset(Rest(cs, n)) == multiset(Survivors(cs, n))
  {
    if n > 0 {
      PartitionIsPermutation(cs, n - 1);
      var os, rs, ss := Owners(cs, n - 1), Rest(cs, n - 1), Survivors(cs, n - 1);
      if HasNoDoc(cs[n - 1]) {
        assert Owners(cs, n) == os && Rest(cs, n) == rs && Survivors(cs, n) == ss;
      } else if IsOwner(cs[n - 1]) {
        assert Owners(cs, n) == os + [n - 1] && Rest(cs, n) == rs && Survivors(cs, n) == ss + [n - 1];
        assert multiset(os + [n - 1]) == multiset(os) + multiset{n - 1};
        assert multiset(ss + [n - 1]) == multiset(ss) + multiset{n - 1};
      } else {
        assert Owners(cs, n) == os && Rest(cs, n) == rs + [n - 1] && Survivors(cs, n) == ss + [n - 1];
        assert multiset(rs + [n - 1]) == multiset(rs) + multiset{n - 1};
        assert multiset(ss + [n - 1]) == multiset(ss) + multiset{n - 1};
      }
    }
  }

  /** A name is an owner name exactly when some named owner of `os` has it. */
  lemma {:induction false} OwnerNamesMembers(cs: seq<Chunk>, os: seq<nat>)
    requires Indices(cs, os)
    ensures forall name :: name in OwnerNames(cs, os) <==>
      exists i :: 0 <= i < |os| && DeclName(cs[os[i]].decl) == Some(name)
  {
    if os != [] {
      var init := os[..|os| - 1];
      OwnerNamesMembers(cs, init);
      forall name | name in OwnerNames(cs, init)
        ensures exists i :: 0 <= i < |os| && DeclName(cs[os[i]].decl) == Some(name)
      {
        var i :| 0 <= i < |init| && DeclName(cs[init[i]].decl) == Some(name);
        assert os[i] == init[i];
      }
    }
  }

  /** A member is in `KeyIn(.., ks)` exactly when its bucket is one of `ks`. */
  lemma {:induction false} KeyInMembers(cs: seq<Chunk>, keys: set<string>, rs: seq<nat>, ks: set<string>)
    requires Indices(cs, rs)
    ensures forall x: nat :: x in KeyIn(cs, keys, rs, ks) <==> x in rs && KeyOf(cs, keys, x) in ks
  {
    if rs != [] {
      var init := rs[..|rs| - 1];
      KeyInMembers(cs, keys, init, ks);
      assert rs == init + [rs[|rs| - 1]];
    }
  }

  /**
   * The sections of `os` hold exactly the named owners of `os` and the members
   * whose bucket is one of their names.
   */
  lemma {:induction false} SectionsMembers(cs: seq<Chunk>, keys: set<string>, os: seq<nat>, rs: seq<nat>)
    requires Indices(cs, os) && Indices(cs, rs)
    ensures forall x: nat :: x in Sections(cs, keys, os, rs) <==>
      (x in os && DeclName(cs[x].decl).Some?) || (x in rs && KeyOf(cs, keys, x) in OwnerNames(cs, os))
  {
    if os != [] {
      var init := os[..|os| - 1];
      var o := os[|os| - 1];
      SectionsMembers(cs, keys, init, rs);
      assert os == init + [o];
      match DeclName(cs[o].decl) {
        case Some(name) =>
          KeyInMembers(cs, keys, rs, {name});
        case None =>
      }
    }
  }

  /**
   * The output holds exactly the chunks without `NoDoc`, except the owners
   * without a name: those are dropped (src/main.rs:130-133, 157-161).
   */
  lemma RegroupMembers(cs: seq<Chunk>)
    ensures forall x: nat :: x in RegroupSpec(cs) <==>
      x < |cs| && !HasNoDoc(cs[x]) && (IsOwner(cs[x]) ==> DeclName(cs[x].decl).Some?)
    ensures Indices(cs, RegroupSpec(cs))
  {
    var os := Owners(cs, |cs|);
    var rs := Rest(cs, |cs|);
    PartitionMembers(cs, |cs|);
    SectionsMembers(cs, Keys(cs), os, rs);
    KeyInMembers(cs, Keys(cs), rs, {NoName});
    forall i | 0 <= i < |RegroupSpec(cs)|
      ensures RegroupSpec(cs)[i] < |cs|
    {
      assert RegroupSpec(cs)[i] in RegroupSpec(cs);
    }
  }

  /** The named owners of `os` have pairwise different names, none of them `_NO_NAME`. */
  predicate DistinctNames(cs: seq<Chunk>, os: seq<nat>)
    requires Indices(cs, os)
  {
    (forall i :: 0 <= i < |os| ==> DeclName(cs[os[i]].decl) != Some(NoName))
    && forall i, j :: 0 <= i < j < |os| && DeclName(cs[os[i]].decl).Some? ==>
      DeclName(cs[os[i]].decl) != DeclName(cs[os[j]].decl)
  }

  /** Taking one more bucket away from the selection removes exactly its members. */
  lemma {:induction false} KeyInSplit(cs: seq<Chunk>, keys: set<string>, rs: seq<nat>, ks: set<string>, k: string)
    requires Indices(cs, rs) && k !in ks
    ensures multiset(KeyIn(cs, keys, rs, ks + {k})) == multiset(KeyIn(cs, keys, rs, ks)) + multiset(Bucket(cs, keys, rs, k))
  {
    if rs != [] {
      KeyInSplit(cs, keys, rs[..|rs| - 1], ks, k);
    }
  }

  /** Selecting no bucket selects no member. */
  lemma {:induction false} KeyInNothing(cs: seq<Chunk>, keys: set<string>, rs: seq<nat>)
    requires Indices(cs, rs)
    ensures KeyIn(cs, keys, rs, {}) == []
  {
    if rs != [] {
      KeyInNothing(cs, keys, rs[..|rs| - 1]);
    }
  }

  /** Selecting every bucket a member can go to selects all members. */
  lemma {:induction false} KeyInAll(cs: seq<Chunk>, keys: set<string>, rs: seq<nat>)
    requires Indices(cs, rs) && NoName in keys
    ensures KeyIn(cs, keys, rs, keys) == rs
  {
    if rs != [] {
      var init := rs[..|rs| - 1];
      KeyInAll(cs, keys, init);
      assert rs == init + [rs[|rs| - 1]];
    }
  }

  /** With distinct names, the sections are the named owners plus the members of their buckets, once each. */
  lemma {:induction false} SectionsCount(cs: seq<Chunk>, keys: set<string>, os: seq<nat>, rs: seq<nat>)
    requires Indices(cs, os) && Indices(cs, rs) && DistinctNames(cs, os)
    ensures multiset(Sections(cs, keys, os, rs)) ==
      multiset(NamedOnly(cs, os)) + multiset(KeyIn(cs, keys, rs, OwnerNames(cs, os)))
  {
    if os == [] {
      KeyInNothing(cs, keys, rs);
    } else {
      var init := os[..|os| - 1];
      var o := os[|os| - 1];
      assert DistinctNames(cs, init) by {
        forall i, j | 0 <= i < j < |init| && DeclName(cs[init[i]].decl).Some?
          ensures DeclName(cs[init[i]].decl) != DeclName(cs[init[j]].decl)
        {
          assert init[i] == os[i] && init[j] == os[j];
        }
      }
      SectionsCount(cs, keys, init, rs);
      match DeclName(cs[o].decl) {
        case Some(name) =>
          OwnerNamesMembers(cs, init);
          assert name !in OwnerNames(cs, init);
          KeyInSplit(cs, keys, rs, OwnerNames(cs, init), name);
          assert OwnerNames(cs, os) == OwnerNames(cs, init) + {name};
          assert NamedOnly(cs, os) == NamedOnly(cs, init) + [o];
          var tail := [o] + Bucket(cs, keys, rs, name);
          assert Sections(cs, keys, os, rs) == Sections(cs, keys, init, rs) + tail;
          MultisetShuffle(Sections(cs, keys, init, rs), NamedOnly(cs, init), KeyIn(cs, keys, rs, OwnerNames(cs, init)),
            Bucket(cs, keys, rs, name), o);
        case None =>
          assert OwnerNames(cs, os) == OwnerNames(cs, init);
          assert NamedOnly(cs, os) == NamedOnly(cs, init);
          assert Sections(cs, keys, os, rs) == Sections(cs, keys, init, rs);
      }
    }
  }

  /** Appending an owner and its bucket adds the owner to the first part and the bucket to the second. */
  lemma MultisetShuffle(ss: seq<nat>, ns: seq<nat>, ks: seq<nat>, bs: seq<nat>, o: nat)
    requires multiset(ss) == multiset(ns) + multiset(ks)
    ensures multiset(ss + ([o] + bs)) == multiset(ns + [o]) + (multiset(ks) + multiset(bs))
  {
    assert multiset(ss + ([o] + bs)) == multiset(ss) + multiset{o} + multiset(bs);
    assert multiset(ns + [o]) == multiset(ns) + multiset{o};
  }

  /** The named chunks among `os`, in order. */
  function NamedOnly(cs: seq<Chunk>, os: seq<nat>): (r: seq<nat>)
    requires Indices(cs, os)
    ensures forall i :: 0 <= i < |os| && DeclName(cs[os[i]].decl).Some? ==> os[i] in r
  {
    if os == [] then []
    else
      if DeclName(cs[os[|os| - 1]].decl).Some? then NamedOnly(cs, os[..|os| - 1]) + [os[|os| - 1]]
      else NamedOnly(cs, os[..|os| - 1])
  }

  /**
   * When every owner is named, no two owners share a name, and none is named
   * `_NO_NAME`, the output is a permutation of the chunks without `NoDoc`.
   */
  lemma RegroupIsPermutation(cs: seq<Chunk>)
    requires forall i :: 0 <= i < |Owners(cs, |cs|)| ==> DeclName(cs[Owners(cs, |cs|)[i]].decl).Some?
    requires DistinctNames(cs, Owners(cs, |cs|))
    ensures multiset(RegroupSpec(cs)) == multiset(Survivors(cs, |cs|))
  {
    var os := Owners(cs, |cs|);
    var rs := Rest(cs, |cs|);
    var keys := Keys(cs);
    var names := OwnerNames(cs, os);
    SectionsCount(cs, keys, os, rs);
    AllNamed(cs, os);
    FallbackSplit(cs, os, rs);
    PartitionIsPermutation(cs, |cs|);
    PermutationAlgebra(Sections(cs, keys, os, rs), Bucket(cs, keys, rs, NoName), KeyIn(cs, keys, rs, names),
      os, rs, Survivors(cs, |cs|));
  }

  /** When no owner is named `_NO_NAME`, each member is either in an owner's bucket or in the fallback bucket. */
  lemma FallbackSplit(cs: seq<Chunk>, os: seq<nat>, rs: seq<nat>)
    requires os == Owners(cs, |cs|) && Indices(cs, rs)
    requires forall i :: 0 <= i < |os| ==> DeclName(cs[os[i]].decl) != Some(NoName)
    ensures multiset(rs) == multiset(KeyIn(cs, Keys(cs), rs, OwnerNames(cs, os))) + multiset(Bucket(cs, Keys(cs), rs, NoName))
  {
    var keys, names := Keys(cs), OwnerNames(cs, os);
    OwnerNamesMembers(cs, os);
    assert NoName !in names;
    KeyInSplit(cs, keys, rs, names, NoName);
    assert names + {NoName} == keys;
    KeyInAll(cs, keys, rs);
  }

  /** The multiset bookkeeping of `RegroupIsPermutation`. */
  lemma PermutationAlgebra(ss: seq<nat>, fallback: seq<nat>, named: seq<nat>, os: seq<nat>, rs: seq<nat>, survivors: seq<nat>)
    requires multiset(ss) == multiset(os) + multiset(named)
    requires multiset(rs) == multiset(named) + multiset(fallback)
    requires multiset(os) + multiset(rs) == multiset(survivors)
    ensures multiset(ss + fallback) == multiset(survivors)
  {
  }

  /** When every chunk of `os` is named, `NamedOnly` keeps them all. */
  lemma {:induction false} AllNamed(cs: seq<Chunk>, os: seq<nat>)
    requires Indices(cs, os)
    requires forall i :: 0 <= i < |os| ==> DeclName(cs[os[i]].decl).Some?
    ensures NamedOnly(cs, os) == os
  {
    if os != [] {
      var init := os[..|os| - 1];
      AllNamed(cs, init);
      assert os == init + [os[|os| - 1]];
    }
  }

  /** The sections of a concatenation are the concatenation of the sections. */
  lemma {:induction false} SectionsAppend(cs: seq<Chunk>, keys: set<string>, xs: seq<nat>, ys: seq<nat>, rs: seq<nat>)
    requires Indices(cs, xs) && Indices(cs, ys) && Indices(cs, rs)
    ensures Indices(cs, xs + ys)
    ensures Sections(cs, keys, xs + ys, rs) == Sections(cs, keys, xs, rs) + Sections(cs, keys, ys, rs)
  {
    if ys == [] {
      AppendEmpty(xs);
      AppendEmpty(Sections(cs, keys, xs, rs));
    } else {
      var init, last := ys[..|ys| - 1], ys[|ys| - 1];
      SectionsAppend(cs, keys, xs, init, rs);
      AppendInit(xs, ys);
      match DeclName(cs[last].decl)
      case Some(name) =>
        AppendAssoc(Sections(cs, keys, xs, rs), Sections(cs, keys, init, rs), [last] + Bucket(cs, keys, rs, name));
      case None =>
    }
  }

  /**
   * Two owners with the same name both get that name's bucket: a member of
   * it is written twice (src/main.rs:134 inserts the name again, src/main.rs:166
   * reads the bucket once per owner).
   */
  lemma SharedNameRepeatsMembers(cs: seq<Chunk>, p: nat, q: nat, x: nat)
    requires p < q < |Owners(cs, |cs|)|
    requires DeclName(cs[Owners(cs, |cs|)[p]].decl).Some?
    requires DeclName(cs[Owners(cs, |cs|)[p]].decl) == DeclName(cs[Owners(cs, |cs|)[q]].decl)
    requires x in Rest(cs, |cs|) && DeclName(cs[x].decl) == DeclName(cs[Owners(cs, |cs|)[p]].decl)
    ensures multiset(RegroupSpec(cs))[x] >= 2
  {
    var os := Owners(cs, |cs|);
    var rs := Rest(cs, |cs|);
    var keys := Keys(cs);
    var name := DeclName(cs[os[p]].decl).value;
    assert name in keys;
    var front, back := os[..q], os[q..];
    assert os == front + back;
    SectionsAppend(cs, keys, front, back, rs);
    // the bucket is reached through the owner at `p` ...
    OwnerNamesMembers(cs, front);
    assert front[p] == os[p];
    SectionsMembers(cs, keys, front, rs);
    // ... and again through the owner at `q`
    OwnerNamesMembers(cs, back);
    assert back[0] == os[q];
    SectionsMembers(cs, keys, back, rs);
    Twice(Sections(cs, keys, front, rs), Sections(cs, keys, back, rs), Bucket(cs, keys, rs, NoName), x);
  }

  /** An element of two of three concatenated sequences occurs at least twice. */
  lemma Twice(a: seq<nat>, b: seq<nat>, c: seq<nat>, x: nat)
    requires x in a && x in b
    ensures multiset(a + b + c)[x] >= 2
  {
    assert multiset(a + b + c) == multiset(a) + multiset(b) + multiset(c);
  }

  /**
   * An owner named `_NO_NAME` gets the fallback bucket as its section, and the
   * fallback bucket is written again at the end (src/main.rs:173-175).
   */
  lemma NoNameOwnerRepeatsFallback(cs: seq<Chunk>, p: nat, x: nat)
    requires p < |Owners(cs, |cs|)| && DeclName(cs[Owners(cs, |cs|)[p]].decl) == Some(NoName)
    requires x in Rest(cs, |cs|) && KeyOf(cs, Keys(cs), x) == NoName
    ensures multiset(RegroupSpec(cs))[x] >= 2
  {
    var os := Owners(cs, |cs|);
    var rs := Rest(cs, |cs|);
    OwnerNamesMembers(cs, os);
    SectionsMembers(cs, Keys(cs), os, rs);
    KeyInMembers(cs, Keys(cs), rs, {NoName});
    var ss, fallback := Sections(cs, Keys(cs), os, rs), Bucket(cs, Keys(cs), rs, NoName);
    Twice(ss, fallback, [], x);
    assert ss + fallback + [] == RegroupSpec(cs);
  }
}
