/** How the server picks a cipher (ssl3_choose_cipher), against what its comments promise. */
module CipherChoice {
  import opened Common

  datatype Cipher = Cipher(id: nat, minVersion: nat, maxVersion: nat, keyExchange: bv32, auth: bv32)

  /** What the version and the server's configuration admit. */
  predicate Usable(c: Cipher, version: nat, maskK: bv32, maskA: bv32) {
    c.minVersion <= version <= c.maxVersion && c.keyExchange & maskK != 0 && c.auth & maskA != 0
  }

  /** sk_SSL_CIPHER_find: the first place, or past the end. */
  function Find(list: seq<Cipher>, c: Cipher): (i: nat)
    ensures i <= |list| && (i < |list| ==> list[i] == c)
    ensures i < |list| <==> c in list
    ensures forall k | 0 <= k < i :: list[k] != c
  {
    if list == [] || list[0] == c then 0 else 1 + Find(list[1..], c)
  }

  // ---- What is promised ----

  /** Where the equal-preference group that a cipher at `n` belongs to starts. A flag of 1 joins a
      cipher to the one after it. */
  function GroupStart(flags: seq<bool>, n: nat): (start: nat)
    requires n <= |flags|
    ensures start <= n && (start == 0 || !flags[start - 1]) && forall k | start <= k < n :: flags[k]
  {
    if n == 0 || !flags[n - 1] then n else GroupStart(flags, n - 1)
  }

  predicate Closed(flags: seq<bool>, i: nat) {
    exists end | i <= end < |flags| :: !flags[end]
  }

  type Filter = Cipher -> bool

  predicate Acceptable(ok: Filter, other: seq<Cipher>, c: Cipher) {
    ok(c) && c in other
  }

  /** The choice with server preference: acceptable to both, in the first equal-preference group with
      any such cipher, and of those the one the client lists first. */
  predicate IsServerChoice(server: seq<Cipher>, flags: seq<bool>, client: seq<Cipher>, ok: Filter, i: nat)
    requires |flags| == |server|
  {
    && i < |server| && Closed(flags, i) && Acceptable(ok, client, server[i])
    && forall k | 0 <= k < |server| && Closed(flags, k) && Acceptable(ok, client, server[k]) ::
      && GroupStart(flags, i) <= GroupStart(flags, k)
      && (GroupStart(flags, i) == GroupStart(flags, k) ==> Find(client, server[i]) <= Find(client, server[k]))
  }

  /** The choice with client preference: the first acceptable cipher in the client's list. */
  predicate IsClientChoice(client: seq<Cipher>, server: seq<Cipher>, ok: Filter, i: nat) {
    && i < |client| && Acceptable(ok, server, client[i])
    && forall k | 0 <= k < i :: !Acceptable(ok, server, client[k])
  }

  lemma {:induction false} SameGroup(flags: seq<bool>, i: nat, k: nat)
    requires i <= k <= |flags|
    ensures GroupStart(flags, i) <= GroupStart(flags, k)
    ensures GroupStart(flags, i) == GroupStart(flags, k) <==> forall j | i <= j < k :: flags[j]
    decreases k
  {
    if i < k {
      SameGroup(flags, i, k - 1);
    }
  }

  // ---- The scan ----

  /** `groupMin` after the first `n` server ciphers: the least client index of an acceptable one in the
      group that is still open, if any; and none was acceptable in the groups before. */
  predicate GroupMinimum(server: seq<Cipher>, flags: seq<bool>, client: seq<Cipher>, ok: Filter, n: nat, groupMin: int)
    requires |flags| == |server| && n <= |server|
  {
    var start := GroupStart(flags, n);
    && (forall k | 0 <= k < start :: !Acceptable(ok, client, server[k]))
    && if groupMin == -1 then forall k | start <= k < n :: !Acceptable(ok, client, server[k])
    else
      && (exists k | start <= k < n :: Acceptable(ok, client, server[k]) && Find(client, server[k]) == groupMin)
      && forall k | start <= k < n && Acceptable(ok, client, server[k]) :: groupMin <= Find(client, server[k])
  }

  lemma MinimumIsIndex(server: seq<Cipher>, flags: seq<bool>, client: seq<Cipher>, ok: Filter, n: nat, groupMin: int)
    requires |flags| == |server| && n <= |server| && GroupMinimum(server, flags, client, ok, n, groupMin) && groupMin != -1
    ensures 0 <= groupMin < |client|
  {
  }

  /** One more cipher in the open group. */
  lemma GroupGrows(server: seq<Cipher>, flags: seq<bool>, client: seq<Cipher>, ok: Filter, n: nat, groupMin: int, next: int)
    requires |flags| == |server| && n < |server| && GroupMinimum(server, flags, client, ok, n, groupMin) && flags[n]
    requires next == if Acceptable(ok, client, server[n]) && (groupMin == -1 || groupMin > Find(client, server[n]))
      then Find(client, server[n]) else groupMin
    ensures GroupMinimum(server, flags, client, ok, n + 1, next)
  {
    hide Acceptable, Find;
    assert GroupStart(flags, n + 1) == GroupStart(flags, n);
    if next != groupMin {
      assert Acceptable(ok, client, server[n]) && Find(client, server[n]) == next;
    } else if groupMin != -1 {
      var k :| GroupStart(flags, n) <= k < n && Acceptable(ok, client, server[k]) && Find(client, server[k]) == groupMin;
      assert k < n + 1;
    }
  }

  /** A group that ends without an acceptable cipher. */
  lemma GroupPasses(server: seq<Cipher>, flags: seq<bool>, client: seq<Cipher>, ok: Filter, n: nat)
    requires |flags| == |server| && n < |server| && GroupMinimum(server, flags, client, ok, n, -1) && !flags[n]
    requires !Acceptable(ok, client, server[n])
    ensures GroupMinimum(server, flags, client, ok, n + 1, -1)
  {
    hide Acceptable;
  }

  /** The best of a group that ends at `n` is the choice. */
  lemma GroupDecides(server: seq<Cipher>, flags: seq<bool>, client: seq<Cipher>, ok: Filter, n: nat, i: nat)
    requires |flags| == |server| && n < |server| && !flags[n] && GroupStart(flags, n) <= i <= n
    requires forall k | 0 <= k < GroupStart(flags, n) :: !Acceptable(ok, client, server[k])
    requires Acceptable(ok, client, server[i])
    requires forall k | GroupStart(flags, n) <= k <= n && Acceptable(ok, client, server[k]) :: Find(client, server[i]) <= Find(client, server[k])
    ensures IsServerChoice(server, flags, client, ok, i)
  {
    hide Acceptable;
    SameGroup(flags, i, n);
    forall k | 0 <= k < |server| && Closed(flags, k) && Acceptable(ok, client, server[k])
      ensures GroupStart(flags, i) <= GroupStart(flags, k)
      ensures GroupStart(flags, i) == GroupStart(flags, k) ==> Find(client, server[i]) <= Find(client, server[k])
    {
      if k > n {
        SameGroup(flags, i, k);
      } else {
        SameGroup(flags, k, n);
      }
    }
  }

  /** No flags stand for groups of one. */
  function FlagsOf(prio: seq<Cipher>, inGroupFlags: Option<seq<bool>>): seq<bool> {
    if inGroupFlags.None? then seq(|prio|, _ => false) else inGroupFlags.value
  }

  lemma SingletonGroups(prio: seq<Cipher>, allow: seq<Cipher>, ok: Filter, i: nat)
    ensures IsServerChoice(prio, FlagsOf(prio, None), allow, ok, i) ==> IsClientChoice(prio, allow, ok, i)
    ensures forall k | 0 <= k < |prio| :: Closed(FlagsOf(prio, None), k)
  {
    var flags := FlagsOf(prio, None);
    forall k | 0 <= k < |prio|
      ensures Closed(flags, k) && GroupStart(flags, k) == k
    {
      assert !flags[k];
    }
  }

  /** The cipher that decides when the group ends at `n`. */
  lemma BestOf(prio: seq<Cipher>, flags: seq<bool>, allow: seq<Cipher>, ok: Filter, n: nat, groupMin: int) returns (i: nat)
    requires |flags| == |prio| && n < |prio| && !flags[n] && GroupMinimum(prio, flags, allow, ok, n, groupMin)
    requires groupMin != -1 || Acceptable(ok, allow, prio[n])
    ensures IsServerChoice(prio, flags, allow, ok, i)
    ensures Find(allow, prio[i]) ==
      if Acceptable(ok, allow, prio[n]) && (groupMin == -1 || groupMin >= Find(allow, prio[n])) then Find(allow, prio[n]) else groupMin
  {
    hide Acceptable, IsServerChoice;
    if Acceptable(ok, allow, prio[n]) && (groupMin == -1 || groupMin >= Find(allow, prio[n])) {
      i := n;
    } else {
      i :| GroupStart(flags, n) <= i < n && Acceptable(ok, allow, prio[i]) && Find(allow, prio[i]) == groupMin;
    }
    GroupDecides(prio, flags, allow, ok, n, i);
  }

  lemma NothingOpen(prio: seq<Cipher>, allow: seq<Cipher>, ok: Filter, n: nat, groupMin: int)
    requires n <= |prio| && GroupMinimum(prio, FlagsOf(prio, None), allow, ok, n, groupMin)
    ensures groupMin == -1
  {
    assert GroupStart(FlagsOf(prio, None), n) == n;
  }

  lemma NoneAcceptable(prio: seq<Cipher>, flags: seq<bool>, allow: seq<Cipher>, ok: Filter, groupMin: int)
    requires |flags| == |prio| && GroupMinimum(prio, flags, allow, ok, |prio|, groupMin)
    ensures forall k | 0 <= k < |prio| && Closed(flags, k) :: !Acceptable(ok, allow, prio[k])
  {
    hide Acceptable;
  }

  /** The loop of ssl3_choose_cipher. */
  method Scan(prio: seq<Cipher>, inGroupFlags: Option<seq<bool>>, allow: seq<Cipher>, ok: Filter) returns (choice: Option<Cipher>)
    requires inGroupFlags.Some? ==> |inGroupFlags.value| == |prio|
    ensures var flags := FlagsOf(prio, inGroupFlags);
      if choice.None? then forall k | 0 <= k < |prio| && Closed(flags, k) :: !Acceptable(ok, allow, prio[k])
      else exists i: nat :: IsServerChoice(prio, flags, allow, ok, i) && choice == Some(prio[i])
  {
    hide IsServerChoice;
    ghost var flags := FlagsOf(prio, inGroupFlags);
    var groupMin: int := -1;
    for n := 0 to |prio|
      invariant GroupMinimum(prio, flags, allow, ok, n, groupMin)
    {
      var c := prio[n];
      var index := Find(allow, c);
      if groupMin != -1 {
        MinimumIsIndex(prio, flags, allow, ok, n, groupMin);
      }
      ghost var before := groupMin;
      if ok(c) && index < |allow| {
        if inGroupFlags.Some? && inGroupFlags.value[n] {
          if groupMin == -1 || groupMin > index {
            groupMin := index;
          }
        } else {
          ghost var i := BestOf(prio, flags, allow, ok, n, groupMin);
          if groupMin != -1 && groupMin < index {
            index := groupMin;
          }
          return Some(allow[index]);
        }
      }
      if inGroupFlags.Some? && !inGroupFlags.value[n] && groupMin != -1 {
        ghost var i := BestOf(prio, flags, allow, ok, n, groupMin);
        return Some(allow[groupMin]);
      }
      if flags[n] {
        GroupGrows(prio, flags, allow, ok, n, before, groupMin);
      } else {
        if inGroupFlags.None? {
          NothingOpen(prio, allow, ok, n, groupMin);
        }
        GroupPasses(prio, flags, allow, ok, n);
      }
    }
    NoneAcceptable(prio, flags, allow, ok, groupMin);
    return None;
  }

  predicate WellFormedFlags(flags: seq<bool>) {
    flags != [] ==> !flags[|flags| - 1]
  }

  /** ssl3_choose_cipher. `flags` are the server's in_group_flags. */
  method ChooseCipher(serverPreference: bool, server: seq<Cipher>, flags: seq<bool>, client: seq<Cipher>,
                      version: nat, maskK: bv32, maskA: bv32) returns (choice: Option<Cipher>)
    requires |flags| == |server|
    ensures var ok := (c: Cipher) => Usable(c, version, maskK, maskA);
      if serverPreference then
        if choice.None? then forall k | 0 <= k < |server| && Closed(flags, k) :: !Acceptable(ok, client, server[k])
        else exists i: nat :: IsServerChoice(server, flags, client, ok, i) && choice == Some(server[i])
      else
        if choice.None? then forall k | 0 <= k < |client| :: !Acceptable(ok, server, client[k])
        else exists i: nat :: IsClientChoice(client, server, ok, i) && choice == Some(client[i])
  {
    hide IsServerChoice, IsClientChoice, Closed, Acceptable;
    var ok := (c: Cipher) => Usable(c, version, maskK, maskA);
    if serverPreference {
      choice := Scan(server, Some(flags), client, ok);
    } else {
      choice := Scan(client, None, server, ok);
      forall i: nat
        ensures IsServerChoice(client, FlagsOf(client, None), server, ok, i) ==> IsClientChoice(client, server, ok, i)
      {
        SingletonGroups(client, server, ok, i);
      }
      SingletonGroups(client, server, ok, 0);
    }
  }

  /** With well-formed flags nothing acceptable is overlooked, and exactly then in general: an
      unfinished last group is never decided. */
  lemma AllClosedExactly(flags: seq<bool>)
    ensures (forall k | 0 <= k < |flags| :: Closed(flags, k)) <==> WellFormedFlags(flags)
  {
    if WellFormedFlags(flags) {
      forall k | 0 <= k < |flags|
        ensures Closed(flags, k)
      {
        assert !flags[|flags| - 1];
      }
    } else {
      assert !Closed(flags, |flags| - 1);
    }
  }

  /** The promise fixes the choice. */
  lemma ServerChoiceUnique(server: seq<Cipher>, flags: seq<bool>, client: seq<Cipher>, ok: Filter, i: nat, j: nat)
    requires |flags| == |server| && IsServerChoice(server, flags, client, ok, i) && IsServerChoice(server, flags, client, ok, j)
    ensures server[i] == server[j]
  {
    assert Find(client, server[i]) == Find(client, server[j]);
  }
}
