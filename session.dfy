/** QCubed\Helper\SessionCleaner: expiry of session entries. Every managed
    key `k` may carry a companion timestamp entry '__sc_ts_' + k; keys named
    in the preserve list are never expired. The session is $_SESSION, modelled
    as its keys in order and the value of each; time() and session_status()
    are the `now` and `active` arguments. */
module Sessions {
  import opened Php

  const TS_PREFIX: string := "__sc_ts_"

  /** The companion timestamp key of `key`. */
  function TsKey(key: string): string { TS_PREFIX + key }

  predicate IsTsKey(x: string) { TS_PREFIX <= x }

  /** The key whose timestamp `x` is. */
  function Owner(x: string): string
    requires IsTsKey(x)
  {
    x[|TS_PREFIX|..]
  }

  lemma TsKeyOwner(key: string)
    ensures IsTsKey(TsKey(key)) && Owner(TsKey(key)) == key
  {
    assert TsKey(key)[..|TS_PREFIX|] == TS_PREFIX;
  }

  /** A timestamp key of a timestamp key. */
  predicate Nested(x: string) { TS_PREFIX + TS_PREFIX <= x }

  lemma TsKeyOfTsKey(x: string)
    requires IsTsKey(x)
    ensures Nested(TsKey(x))
  {
    assert (TS_PREFIX + x)[..|TS_PREFIX| + |TS_PREFIX|] == TS_PREFIX + x[..|TS_PREFIX|];
  }

  lemma NestedOwner(key: string)
    requires Nested(TsKey(key))
    ensures IsTsKey(key)
  {
    var t := TsKey(key);
    assert t[..|TS_PREFIX| + |TS_PREFIX|] == TS_PREFIX + TS_PREFIX;
    assert key[..|TS_PREFIX|] == t[|TS_PREFIX|..|TS_PREFIX| + |TS_PREFIX|];
    assert (TS_PREFIX + TS_PREFIX)[|TS_PREFIX|..] == TS_PREFIX;
  }

  predicate Distinct(s: seq<string>)
  {
    forall i, j | 0 <= i < j < |s| :: s[i] != s[j]
  }

  // ---------------------------------------------------------------- preserve list

  /** array_unique(): the first occurrence of every element, in order. */
  function Unique(s: seq<string>): (r: seq<string>)
    ensures forall x :: x in r <==> x in s
    ensures Distinct(r)
  {
    if s == [] then []
    else
      var u := Unique(s[..|s| - 1]);
      if s[|s| - 1] in s[..|s| - 1] then u else u + [s[|s| - 1]]
  }

  /** A list that is already free of duplicates is its own array_unique().
      Together with UniqueExtends this says the old preserve list stays, in
      its order, at the front of the new one. */
  lemma {:induction false} UniqueOfDistinct(s: seq<string>)
    requires Distinct(s)
    ensures Unique(s) == s
  {
    if s != [] {
      var init := s[..|s| - 1];
      assert Distinct(init);
      UniqueOfDistinct(init);
      assert s[|s| - 1] !in init;
      assert init + [s[|s| - 1]] == s;
    }
  }

  lemma {:induction false} UniqueExtends(a: seq<string>, b: seq<string>)
    ensures Unique(a) <= Unique(a + b)
  {
    if b != [] {
      var b' := b[..|b| - 1];
      assert (a + b)[..|a + b| - 1] == a + b';
      UniqueExtends(a, b');
    } else {
      assert a + b == a;
    }
  }

  // ---------------------------------------------------------------- the session

  /** $_SESSION: the keys in insertion order and the value under each. */
  datatype Store = Store(keys: seq<string>, values: map<string, Value>)

  predicate WellFormed(st: Store)
  {
    Distinct(st.keys) && (forall k | k in st.keys :: k in st.values) && (forall k | k in st.values :: k in st.keys)
  }

  /** `s` without the element `k`, order kept. */
  function Without(s: seq<string>, k: string): (r: seq<string>)
    ensures forall x :: x in r <==> x in s && x != k
    ensures Distinct(s) ==> Distinct(r)
  {
    if s == [] then []
    else
      var w := Without(s[..|s| - 1], k);
      assert Distinct(s) ==> s[|s| - 1] !in s[..|s| - 1];
      if s[|s| - 1] == k then w else w + [s[|s| - 1]]
  }

  /** unset($_SESSION[k]); a missing key is no change. */
  function Remove(st: Store, k: string): (r: Store)
    ensures r.values == st.values - {k}
    ensures WellFormed(st) ==> WellFormed(r)
  {
    Store(Without(st.keys, k), st.values - {k})
  }

  /** $_SESSION[k] = v: an existing key keeps its place, a new one goes last. */
  function Put(st: Store, k: string, v: Value): (r: Store)
    ensures r.values == st.values[k := v]
    ensures WellFormed(st) ==> WellFormed(r)
  {
    if k in st.values then Store(st.keys, st.values[k := v])
    else Store(st.keys + [k], st.values[k := v])
  }

  /** isset($_SESSION[k]): present and not null. */
  predicate IsSet(st: Store, k: string)
  {
    k in st.values && st.values[k] != Null
  }

  /** The key's timestamp is set and at least maxAge old at `now`. */
  predicate Expired(st: Store, key: string, now: int, maxAge: int)
  {
    IsSet(st, TsKey(key)) && now - ToInt(st.values[TsKey(key)]) >= maxAge
  }

  /** One key of the autoClean() loop: a preserved key or one without a
      timestamp is skipped; an expired key goes together with its timestamp. */
  function SweepStep(st: Store, key: string, preserved: seq<string>, now: int, maxAge: int): Store
  {
    if key in preserved then st
    else if !IsSet(st, TsKey(key)) then st
    else if now - ToInt(st.values[TsKey(key)]) >= maxAge then Remove(Remove(st, key), TsKey(key))
    else st
  }

  /** The first n keys of the snapshot processed. */
  function Sweep(st: Store, snap: seq<string>, n: nat, preserved: seq<string>, now: int, maxAge: int): Store
    requires n <= |snap|
  {
    if n == 0 then st else SweepStep(Sweep(st, snap, n - 1, preserved, now, maxAge), snap[n - 1], preserved, now, maxAge)
  }

  /** The stamping in clean(): a present key without a timestamp gets one. */
  function Stamp(st: Store, key: string, now: int): Store
  {
    if IsSet(st, key) && !IsSet(st, TsKey(key)) then Put(st, TsKey(key), Int(now)) else st
  }

  /** One key of the clean() loop: stamp, then the autoClean() age rule. */
  function CleanStep(st: Store, key: string, preserved: seq<string>, now: int, maxAge: int): Store
  {
    if key in preserved then st else SweepStep(Stamp(st, key, now), key, preserved, now, maxAge)
  }

  function CleanSweep(st: Store, list: seq<string>, n: nat, preserved: seq<string>, now: int, maxAge: int): Store
    requires n <= |list|
  {
    if n == 0 then st else CleanStep(CleanSweep(st, list, n - 1, preserved, now, maxAge), list[n - 1], preserved, now, maxAge)
  }

  // ---------------------------------------------------------------- properties

  /** What one step of the age rule does: it only removes entries, and it
      removes exactly the key and its timestamp when the key is not preserved
      and its timestamp has expired. */
  lemma SweepStepEffect(st: Store, key: string, preserved: seq<string>, now: int, maxAge: int)
    ensures var r := SweepStep(st, key, preserved, now, maxAge);
      (forall x | x in r.values :: x in st.values && r.values[x] == st.values[x])
      && (forall x | x in st.values && x != key && x != TsKey(key) :: x in r.values)
      && (key !in preserved && Expired(st, key, now, maxAge) ==> key !in r.values && TsKey(key) !in r.values)
      && (!(key !in preserved && Expired(st, key, now, maxAge)) ==> r == st)
  {
  }

  /** What the stamping does: at most the key's timestamp changes, and a
      present key then has a set timestamp. */
  lemma StampEffect(st: Store, key: string, now: int)
    ensures var r := Stamp(st, key, now);
      (forall x | x != TsKey(key) :: (x in r.values <==> x in st.values) && (x in st.values ==> r.values[x] == st.values[x]))
      && (IsSet(st, key) ==> IsSet(r, TsKey(key)))
      && (IsSet(st, key) && !IsSet(st, TsKey(key)) ==> r.values[TsKey(key)] == Int(now))
      && (!(IsSet(st, key) && !IsSet(st, TsKey(key))) ==> r == st)
  {
  }

  /** A preserved entry survives autoClean() with its value, provided no
      preserved key is itself a timestamp key (such a key would go with the
      key it stamps). */
  lemma {:induction false} SweepKeepsPreserved(st: Store, snap: seq<string>, n: nat, preserved: seq<string>, now: int, maxAge: int)
    requires n <= |snap|
    requires forall p | p in preserved :: !IsTsKey(p)
    ensures var r := Sweep(st, snap, n, preserved, now, maxAge);
      forall p | p in preserved && p in st.values :: p in r.values && r.values[p] == st.values[p]
  {
    if n > 0 {
      var prev := Sweep(st, snap, n - 1, preserved, now, maxAge);
      SweepKeepsPreserved(st, snap, n - 1, preserved, now, maxAge);
      SweepStepEffect(prev, snap[n - 1], preserved, now, maxAge);
      TsKeyOwner(snap[n - 1]);
    }
  }

  /** The same for clean(). */
  lemma {:induction false} CleanKeepsPreserved(st: Store, list: seq<string>, n: nat, preserved: seq<string>, now: int, maxAge: int)
    requires n <= |list|
    requires forall p | p in preserved :: !IsTsKey(p)
    ensures var r := CleanSweep(st, list, n, preserved, now, maxAge);
      forall p | p in preserved && p in st.values :: p in r.values && r.values[p] == st.values[p]
  {
    if n > 0 {
      CleanKeepsPreserved(st, list, n - 1, preserved, now, maxAge);
      CleanStepKeepsPreserved(CleanSweep(st, list, n - 1, preserved, now, maxAge), list[n - 1], preserved, now, maxAge);
    }
  }

  lemma CleanStepKeepsPreserved(st: Store, key: string, preserved: seq<string>, now: int, maxAge: int)
    requires forall p | p in preserved :: !IsTsKey(p)
    ensures var r := CleanStep(st, key, preserved, now, maxAge);
      forall p | p in preserved && p in st.values :: p in r.values && r.values[p] == st.values[p]
  {
    if key !in preserved {
      var r := CleanStep(st, key, preserved, now, maxAge);
      StampEffect(st, key, now);
      SweepStepEffect(Stamp(st, key, now), key, preserved, now, maxAge);
      TsKeyOwner(key);
      forall p | p in preserved && p in st.values ensures p in r.values && r.values[p] == st.values[p] {
        assert p != TsKey(key) && p != key;
      }
    }
  }

  /** Whether an entry is named by clean()'s list: a listed key or the
      timestamp of one. */
  predicate Listed(x: string, list: seq<string>)
  {
    x in list || (IsTsKey(x) && Owner(x) in list)
  }

  /** clean() leaves every entry that is neither listed nor the timestamp of
      a listed key as it was. */
  lemma {:induction false} CleanTouchesOnlyListed(st: Store, list: seq<string>, n: nat, preserved: seq<string>, now: int, maxAge: int)
    requires n <= |list|
    ensures var r := CleanSweep(st, list, n, preserved, now, maxAge);
      forall x | !Listed(x, list) :: (x in r.values <==> x in st.values) && (x in st.values ==> r.values[x] == st.values[x])
  {
    if n > 0 {
      var key := list[n - 1];
      var prev := CleanSweep(st, list, n - 1, preserved, now, maxAge);
      CleanTouchesOnlyListed(st, list, n - 1, preserved, now, maxAge);
      StampEffect(prev, key, now);
      SweepStepEffect(Stamp(prev, key, now), key, preserved, now, maxAge);
      TsKeyOwner(key);
    }
  }

  /** One listed key in clean(): a present key without a timestamp is stamped
      with `now` and hence expires only when maxAge <= 0; a key that has a
      timestamp follows the age rule of autoClean(). */
  lemma CleanStepRule(st: Store, key: string, preserved: seq<string>, now: int, maxAge: int)
    requires key !in preserved
    ensures var r := CleanStep(st, key, preserved, now, maxAge);
      (IsSet(st, key) && !IsSet(st, TsKey(key)) ==>
        (maxAge <= 0 ==> key !in r.values && TsKey(key) !in r.values)
        && (maxAge > 0 ==> r.values == st.values[TsKey(key) := Int(now)]))
      && (IsSet(st, TsKey(key)) ==> r == SweepStep(st, key, preserved, now, maxAge))
  {
    StampEffect(st, key, now);
    TsKeyOwner(key);
  }

  /** No entry is a timestamp of a timestamp: the sessions the cleaner
      itself produces from ordinary keys. */
  predicate NoNested(st: Store)
  {
    forall x | x in st.values :: !Nested(x)
  }

  lemma TsKeyInjective(a: string, b: string)
    requires TsKey(a) == TsKey(b)
    ensures a == b
  {
    TsKeyOwner(a);
    TsKeyOwner(b);
  }

  /** autoClean() only removes entries: whatever is left has its old value. */
  lemma {:induction false} SweepEntry(st: Store, snap: seq<string>, n: nat, preserved: seq<string>, now: int, maxAge: int, x: string)
    requires n <= |snap|
    ensures var r := Sweep(st, snap, n, preserved, now, maxAge);
      x in r.values ==> x in st.values && r.values[x] == st.values[x]
  {
    if n > 0 {
      SweepEntry(st, snap, n - 1, preserved, now, maxAge, x);
      SweepStepEffect(Sweep(st, snap, n - 1, preserved, now, maxAge), snap[n - 1], preserved, now, maxAge);
    }
  }

  /** A timestamp key met in the snapshot changes nothing when its own
      timestamp key is absent. */
  lemma SweepSkipsTsKey(st: Store, snap: seq<string>, n: nat, preserved: seq<string>, now: int, maxAge: int)
    requires n < |snap| && IsTsKey(snap[n]) && TsKey(snap[n]) !in st.values
    ensures Sweep(st, snap, n + 1, preserved, now, maxAge) == Sweep(st, snap, n, preserved, now, maxAge)
  {
    SweepEntry(st, snap, n, preserved, now, maxAge, TsKey(snap[n]));
  }

  /** In a session without nested timestamps a timestamp key of the
      snapshot changes nothing. */
  lemma SweepSkipsStamp(st: Store, n: nat, preserved: seq<string>, now: int, maxAge: int)
    requires NoNested(st) && n < |st.keys| && IsTsKey(st.keys[n])
    ensures Sweep(st, st.keys, n + 1, preserved, now, maxAge) == Sweep(st, st.keys, n, preserved, now, maxAge)
  {
    TsKeyOfTsKey(st.keys[n]);
    SweepSkipsTsKey(st, st.keys, n, preserved, now, maxAge);
  }

  /** The fate of one ordinary key k at position i of the snapshot: untouched,
      with its timestamp, before its turn; from its turn on present iff it is
      preserved or not expired on the original session, and gone only
      together with its timestamp. */
  lemma {:induction false} SweepTracksKey(st: Store, n: nat, preserved: seq<string>, now: int, maxAge: int, i: nat)
    requires (forall k | k in st.keys :: k in st.values) && NoNested(st) && n <= |st.keys|
    requires i < |st.keys| && !IsTsKey(st.keys[i])
    requires forall m | 0 <= m < |st.keys| && m != i :: st.keys[m] != st.keys[i]
    ensures var r := Sweep(st, st.keys, n, preserved, now, maxAge); var k := st.keys[i];
      (n <= i ==> k in r.values && (TsKey(k) in st.values ==> TsKey(k) in r.values))
      && (i < n ==> (k in r.values <==> k in preserved || !Expired(st, k, now, maxAge))
                    && (k !in r.values ==> TsKey(k) !in r.values))
  {
    if n > 0 {
      var k := st.keys[i];
      var j := st.keys[n - 1];
      var prev := Sweep(st, st.keys, n - 1, preserved, now, maxAge);
      SweepTracksKey(st, n - 1, preserved, now, maxAge, i);
      if IsTsKey(j) {
        SweepSkipsStamp(st, n - 1, preserved, now, maxAge);
      } else if n - 1 == i {
        SweepEntry(st, st.keys, n - 1, preserved, now, maxAge, TsKey(k));
        KeyOwnStep(st, prev, k, preserved, now, maxAge);
      } else {
        assert j != k;
        KeyOtherStep(prev, j, k, preserved, now, maxAge);
      }
    }
  }

  /** The step at a key's own turn decides its fate by its original
      timestamp, which the earlier steps left alone. */
  lemma KeyOwnStep(st: Store, prev: Store, k: string, preserved: seq<string>, now: int, maxAge: int)
    requires k in prev.values
    requires TsKey(k) in st.values ==> TsKey(k) in prev.values
    requires TsKey(k) in prev.values ==> TsKey(k) in st.values && prev.values[TsKey(k)] == st.values[TsKey(k)]
    ensures var r := SweepStep(prev, k, preserved, now, maxAge);
      (k in r.values <==> k in preserved || !Expired(st, k, now, maxAge))
      && (k !in r.values ==> TsKey(k) !in r.values)
  {
    SweepStepEffect(prev, k, preserved, now, maxAge);
  }

  /** The step of another ordinary key leaves a key and its timestamp where
      they are. */
  lemma KeyOtherStep(prev: Store, j: string, k: string, preserved: seq<string>, now: int, maxAge: int)
    requires !IsTsKey(j) && !IsTsKey(k) && j != k
    ensures var r := SweepStep(prev, j, preserved, now, maxAge);
      (k in r.values <==> k in prev.values) && (TsKey(k) in r.values <==> TsKey(k) in prev.values)
  {
    SweepStepEffect(prev, j, preserved, now, maxAge);
    TsKeyOwner(k);
    TsKeyOwner(j);
    if TsKey(j) == TsKey(k) {
      TsKeyInjective(j, k);
    }
  }

  /** A timestamp entry disappears only together with the key it stamps. */
  lemma {:induction false} SweepTracksStamp(st: Store, n: nat, preserved: seq<string>, now: int, maxAge: int, x: string)
    requires (forall k | k in st.keys :: k in st.values) && NoNested(st) && n <= |st.keys|
    requires x in st.values && IsTsKey(x)
    ensures var r := Sweep(st, st.keys, n, preserved, now, maxAge);
      x !in r.values ==> Owner(x) in st.values && Owner(x) !in r.values
  {
    if n > 0 {
      var j := st.keys[n - 1];
      var prev := Sweep(st, st.keys, n - 1, preserved, now, maxAge);
      var r := Sweep(st, st.keys, n, preserved, now, maxAge);
      SweepTracksStamp(st, n - 1, preserved, now, maxAge, x);
      if IsTsKey(j) {
        SweepSkipsStamp(st, n - 1, preserved, now, maxAge);
      } else {
        assert j in st.keys;
        StampStep(prev, j, x, preserved, now, maxAge);
      }
    }
  }

  /** The step of an ordinary key removes a timestamp only when it is that
      key's own. */
  lemma StampStep(prev: Store, j: string, x: string, preserved: seq<string>, now: int, maxAge: int)
    requires !IsTsKey(j) && IsTsKey(x)
    ensures var r := SweepStep(prev, j, preserved, now, maxAge);
      (x in prev.values && x !in r.values ==> Owner(x) == j && j !in r.values)
      && (Owner(x) in r.values ==> Owner(x) in prev.values)
  {
    SweepStepEffect(prev, j, preserved, now, maxAge);
    TsKeyOwner(j);
  }

  /** The age rule of autoClean() on a whole session without nested
      timestamps: entries are only removed; an ordinary key stays iff it is
      preserved or its timestamp is missing, null or younger than maxAge; a
      removed key takes its timestamp with it, and a timestamp goes only with
      its key. */
  lemma AutoCleanRule(st: Store, preserved: seq<string>, now: int, maxAge: int)
    requires WellFormed(st) && NoNested(st)
    ensures var r := Sweep(st, st.keys, |st.keys|, preserved, now, maxAge);
      (forall x | x in r.values :: x in st.values && r.values[x] == st.values[x])
      && (forall k | k in st.values && !IsTsKey(k) ::
            (k in r.values <==> k in preserved || !Expired(st, k, now, maxAge))
            && (k !in r.values ==> TsKey(k) !in r.values))
      && (forall x | x in st.values && IsTsKey(x) && x !in r.values :: Owner(x) in st.values && Owner(x) !in r.values)
  {
    var r := Sweep(st, st.keys, |st.keys|, preserved, now, maxAge);
    forall x | x in r.values
      ensures x in st.values && r.values[x] == st.values[x]
    {
      SweepEntry(st, st.keys, |st.keys|, preserved, now, maxAge, x);
    }
    forall k | k in st.values && !IsTsKey(k)
      ensures (k in r.values <==> k in preserved || !Expired(st, k, now, maxAge))
      ensures (k !in r.values ==> TsKey(k) !in r.values)
    {
      var i :| 0 <= i < |st.keys| && st.keys[i] == k;
      SweepTracksKey(st, |st.keys|, preserved, now, maxAge, i);
    }
    forall x | x in st.values && IsTsKey(x) && x !in r.values
      ensures Owner(x) in st.values && Owner(x) !in r.values
    {
      SweepTracksStamp(st, |st.keys|, preserved, now, maxAge, x);
    }
  }

  // ---------------------------------------------------------------- the imperative side

  /** The superglobal $_SESSION. */
  class Session {
    var store: Store

    constructor(store: Store)
      ensures this.store == store
    {
      this.store := store;
    }

    method Unset(k: string)
      modifies this
      ensures store == Remove(old(store), k)
    {
      store := Remove(store, k);
    }

    method Assign(k: string, v: Value)
      modifies this
      ensures store == Put(old(store), k, v)
    {
      store := Put(store, k, v);
    }
  }

  /** The static state of SessionCleaner. */
  class SessionCleaner {
    var preserveKeys: seq<string>
    var hasRunAutoClean: bool

    constructor()
      ensures preserveKeys == [] && !hasRunAutoClean
    {
      preserveKeys := [];
      hasRunAutoClean := false;
    }

    /** setPreserveKeys(): merges the keys in, dropping repeats. */
    method SetPreserveKeys(keys: seq<string>)
      modifies this
      ensures preserveKeys == Unique(old(preserveKeys) + keys)
      ensures hasRunAutoClean == old(hasRunAutoClean)
    {
      preserveKeys := Unique(preserveKeys + keys);
    }

    /** isPreserved(): strict membership in the preserve list. */
    predicate IsPreserved(key: string)
      reads this
    {
      key in preserveKeys
    }

    /** One key of the clean-up loops: the age rule of both. */
    method Expire(session: Session, key: string, now: int, maxAge: int)
      modifies session
      ensures session.store == SweepStep(old(session.store), key, preserveKeys, now, maxAge)
    {
      if IsPreserved(key) {
        return;
      }
      var tsKey := TS_PREFIX + key;
      if !IsSet(session.store, tsKey) {
        return;
      }
      var age := now - ToInt(session.store.values[tsKey]);
      if age >= maxAge {
        session.Unset(key);
        session.Unset(tsKey);
      }
    }

    /** autoClean(): runs once per request, and only on an active session;
        the flag is set before the session is looked at. */
    method AutoClean(session: Session, maxAge: int, now: int, active: bool)
      modifies this, session
      ensures hasRunAutoClean && preserveKeys == old(preserveKeys)
      ensures old(hasRunAutoClean) || !active ==> session.store == old(session.store)
      ensures !old(hasRunAutoClean) && active ==>
        session.store == Sweep(old(session.store), old(session.store).keys, |old(session.store).keys|, preserveKeys, now, maxAge)
    {
      if hasRunAutoClean {
        return;
      }
      hasRunAutoClean := true;
      if !active {
        return;
      }
      // foreach iterates over a copy of the session's keys
      var snap := session.store.keys;
      var i := 0;
      while i < |snap|
        invariant 0 <= i <= |snap|
        invariant hasRunAutoClean && preserveKeys == old(preserveKeys)
        invariant session.store == Sweep(old(session.store), snap, i, preserveKeys, now, maxAge)
      {
        Expire(session, snap[i], now, maxAge);
        i := i + 1;
      }
    }

    /** clean(): the listed keys only, stamping those without a timestamp. */
    method Clean(session: Session, keys: seq<string>, maxAge: int, now: int, active: bool)
      modifies session
      ensures !active ==> session.store == old(session.store)
      ensures active ==> session.store == CleanSweep(old(session.store), keys, |keys|, preserveKeys, now, maxAge)
    {
      if !active {
        return;
      }
      var i := 0;
      while i < |keys|
        invariant 0 <= i <= |keys|
        invariant session.store == CleanSweep(old(session.store), keys, i, preserveKeys, now, maxAge)
      {
        CleanOne(session, keys[i], maxAge, now);
        i := i + 1;
      }
    }

    /** One listed key of clean(). */
    method CleanOne(session: Session, key: string, maxAge: int, now: int)
      modifies session
      ensures session.store == CleanStep(old(session.store), key, preserveKeys, now, maxAge)
    {
      if IsPreserved(key) {
        return;
      }
      var tsKey := TS_PREFIX + key;
      if IsSet(session.store, key) && !IsSet(session.store, tsKey) {
        session.Assign(tsKey, Int(now));
      }
      Expire(session, key, now, maxAge);
    }
  }

  /** The second autoClean() of a request changes nothing, whatever the
      first one found. */
  method AutoCleanTwice(c: SessionCleaner, session: Session, maxAge1: int, maxAge2: int, now1: int, now2: int, active1: bool, active2: bool)
    returns (afterFirst: Store)
    modifies c, session
    ensures c.hasRunAutoClean && session.store == afterFirst
  {
    c.AutoClean(session, maxAge1, now1, active1);
    afterFirst := session.store;
    c.AutoClean(session, maxAge2, now2, active2);
  }
}
