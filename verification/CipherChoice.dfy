/** How a server picks the cipher suite, with groups of equal preference. */
module CipherChoice {
  import opened Wire
  import opened Bits

  datatype Cipher = Cipher(id: nat, minVersion: nat, maxVersion: nat, mkey: nat, auth: nat)

  /** What the configuration and the negotiated version allow. */
  datatype Support = Support(version: nat, maskK: nat, maskA: nat)

  predicate Supported(c: Cipher, s: Support) {
    && c.minVersion <= s.version <= c.maxVersion
    && BitAnd(c.mkey, s.maskK) != 0 && BitAnd(c.auth, s.maskA) != 0
  }

  /** The version is one of the cipher's, and the masks share a bit with its key exchange and authentication. */
  lemma SupportedExactly(c: Cipher, s: Support)
    ensures Supported(c, s) <==>
      && c.minVersion <= s.version && s.version <= c.maxVersion
      && (exists k: nat :: Bit(c.mkey, k) && Bit(s.maskK, k)) && (exists k: nat :: Bit(c.auth, k) && Bit(s.maskA, k))
  {
    CommonBit(c.mkey, s.maskK);
    CommonBit(c.auth, s.maskA);
  }

  lemma CommonBit(a: nat, b: nat)
    ensures BitAnd(a, b) != 0 <==> exists k: nat :: Bit(a, k) && Bit(b, k)
  {
    hide Bit, BitAnd;
    if BitAnd(a, b) == 0 {
      forall k: nat
        ensures !(Bit(a, k) && Bit(b, k))
      {
        AndBit(a, b, k);
        ZeroBit(k);
      }
    } else {
      var k := LowestBit(BitAnd(a, b));
      AndBit(a, b, k);
    }
  }

  lemma {:induction false} LowestBit(n: nat) returns (k: nat)
    requires n > 0
    ensures Bit(n, k)
    decreases n
  {
    if n % 2 == 1 {
      k := 0;
    } else {
      k := LowestBit(n / 2);
      k := k + 1;
    }
  }

  /** A cipher of the priority list that both sides can use. */
  predicate Usable(c: Cipher, s: Support, allow: seq<Cipher>) {
    Supported(c, s) && c in allow
  }

  /** sk_SSL_CIPHER_find: the first position of a cipher in a list. */
  function Find(list: seq<Cipher>, c: Cipher): (r: Option<nat>)
    ensures r.Some? <==> c in list
    ensures r.Some? ==> r.value < |list| && list[r.value] == c && c !in list[..r.value]
  {
    FindFrom(list, c, 0)
  }

  function FindFrom(list: seq<Cipher>, c: Cipher, i: nat): (r: Option<nat>)
    requires i <= |list| && c !in list[..i]
    ensures r.Some? <==> c in list
    ensures r.Some? ==> r.value < |list| && list[r.value] == c && c !in list[..r.value]
    decreases |list| - i
  {
    if i == |list| then None
    else if list[i] == c then Some(i)
    else FindFrom(list, c, i + 1)
  }

  /** The first position of the priority list that holds a usable cipher. */
  predicate FirstUsable(prio: seq<Cipher>, s: Support, allow: seq<Cipher>, f: nat) {
    && f < |prio| && Usable(prio[f], s, allow)
    && forall k :: 0 <= k < f ==> !Usable(prio[k], s, allow)
  }

  /** The last position of the group that contains position f; without flags every cipher is alone. */
  predicate GroupEnd(flags: Option<seq<byte>>, f: nat, e: nat) {
    match flags
    case None => e == f
    case Some(g) => f <= e < |g| && g[e] == 0 && forall k :: f <= k < e ==> g[k] == 1
  }

  /** The usable cipher between two positions that the other side's list has first. */
  predicate BestBetween(prio: seq<Cipher>, s: Support, allow: seq<Cipher>, f: nat, e: nat, m: nat)
    requires f <= e < |prio|
  {
    && (exists k :: f <= k <= e && Usable(prio[k], s, allow) && Find(allow, prio[k]) == Some(m))
    && forall k :: f <= k <= e && Usable(prio[k], s, allow) ==> m <= Find(allow, prio[k]).value
  }

  /** The group of the first usable cipher, when it is closed. */
  predicate FirstGroup(prio: seq<Cipher>, flags: Option<seq<byte>>, s: Support, allow: seq<Cipher>, f: nat, e: nat) {
    FirstUsable(prio, s, allow, f) && e < |prio| && GroupEnd(flags, f, e)
  }

  /** The answer is the best cipher of that group. */
  ghost predicate BestOf(prio: seq<Cipher>, s: Support, allow: seq<Cipher>, f: nat, e: nat, r: Option<Cipher>)
    requires f <= e < |prio|
  {
    exists m: nat :: m < |allow| && BestBetween(prio, s, allow, f, e, m) && r == Some(allow[m])
  }

  /** The flags are 0 or 1, one for each cipher, and the last group is closed. */
  predicate WellFormed(prio: seq<Cipher>, flags: Option<seq<byte>>) {
    FlagsOk(prio, flags) && (flags.Some? && prio != [] ==> flags.value[|prio| - 1] == 0)
  }

  predicate FlagsOk(prio: seq<Cipher>, flags: Option<seq<byte>>) {
    flags.Some? ==> |flags.value| == |prio| && forall i :: 0 <= i < |prio| ==> flags.value[i] == 0 || flags.value[i] == 1
  }

  /**
    * The loop of ssl3_choose_cipher: of the first group with a usable cipher, the one that comes
    * first in the other side's list. A group that is never closed yields nothing.
    */
  method Choose(prio: seq<Cipher>, flags: Option<seq<byte>>, allow: seq<Cipher>, s: Support) returns (r: Option<Cipher>)
    requires FlagsOk(prio, flags)
    ensures r.Some? <==> exists f: nat, e: nat :: FirstGroup(prio, flags, s, allow, f, e)
    ensures forall f: nat, e: nat :: FirstGroup(prio, flags, s, allow, f, e) ==> BestOf(prio, s, allow, f, e, r)
  {
    hide Supported, FindFrom;
    var groupMin := -1;
    ghost var f: nat := 0;
    for i := 0 to |prio|
      invariant if groupMin == -1 then forall k :: 0 <= k < i ==> !Usable(prio[k], s, allow)
                else flags.Some? && f < i && FirstUsable(prio, s, allow, f) && 0 <= groupMin < |allow|
                     && BestBetween(prio, s, allow, f, i - 1, groupMin) && forall k :: f <= k < i ==> flags.value[k] == 1
    {
      var c := prio[i];
      if Supported(c, s) && Find(allow, c).Some? {
        var index := Find(allow, c).value;
        if groupMin == -1 {
          f := i;
        }
        if flags.Some? && flags.value[i] == 1 {
          if groupMin == -1 || groupMin > index {
            groupMin := index;
          }
        } else {
          if groupMin != -1 && groupMin < index {
            index := groupMin;
          }
          assert FirstGroup(prio, flags, s, allow, f, i) && BestBetween(prio, s, allow, f, i, index);
          return Some(allow[index]);
        }
      }
      if flags.Some? && flags.value[i] == 0 && groupMin != -1 {
        assert FirstGroup(prio, flags, s, allow, f, i) && BestBetween(prio, s, allow, f, i, groupMin);
        return Some(allow[groupMin]);
      }
    }
    return None;
  }

  /** With closed groups there is an answer as soon as there is a usable cipher. */
  lemma UsableMeansGroup(prio: seq<Cipher>, flags: Option<seq<byte>>, s: Support, allow: seq<Cipher>, c: Cipher)
    requires WellFormed(prio, flags) && c in prio && Usable(c, s, allow)
    ensures exists f: nat, e: nat :: FirstGroup(prio, flags, s, allow, f, e)
  {
    hide Supported;
    var f: nat := 0;
    while !Usable(prio[f], s, allow)
      invariant f < |prio| && forall k :: 0 <= k < f ==> !Usable(prio[k], s, allow)
      decreases |prio| - f
    {
      assert exists k :: f < k < |prio| && prio[k] == c;
      f := f + 1;
    }
    var e := f;
    if flags.Some? {
      while flags.value[e] == 1
        invariant f <= e < |prio| && forall k :: f <= k < e ==> flags.value[k] == 1
        decreases |prio| - e
      {
        e := e + 1;
      }
    }
    assert FirstGroup(prio, flags, s, allow, f, e);
  }

  /**
    * ssl3_choose_cipher. With server preference the groups are the server's and the client's order
    * decides inside one; without, the client's first usable cipher is taken.
    */
  method ChooseCipher(client: seq<Cipher>, server: seq<Cipher>, inGroupFlags: Option<seq<byte>>, serverPreference: bool, s: Support)
    returns (r: Option<Cipher>)
    requires WellFormed(server, inGroupFlags)
    ensures r.None? <==> forall c :: c in client && c in server ==> !Supported(c, s)
    ensures r.Some? ==> r.value in client && r.value in server && Supported(r.value, s)
    ensures serverPreference ==>
      forall f: nat, e: nat :: FirstGroup(server, inGroupFlags, s, client, f, e) ==> BestOf(server, s, client, f, e, r)
    ensures !serverPreference ==> forall f: nat :: FirstUsable(client, s, server, f) ==> r == Some(client[f])
  {
    hide Supported, BestBetween;
    var prio, flags, allow := client, None, server;
    if serverPreference {
      prio, flags, allow := server, inGroupFlags, client;
    }
    r := Choose(prio, flags, allow, s);
    if r.Some? {
      ghost var f: nat, e: nat :| FirstGroup(prio, flags, s, allow, f, e);
      BestIsUsable(prio, s, allow, f, e, r);
    } else {
      forall c | c in client && c in server
        ensures !Supported(c, s)
      {
        if Supported(c, s) {
          UsableMeansGroup(prio, flags, s, allow, c);
        }
      }
    }
    if !serverPreference {
      forall f: nat | FirstUsable(client, s, server, f)
        ensures r == Some(client[f])
      {
        AloneIsFirst(client, s, server, f, r);
      }
    }
  }

  lemma BestIsUsable(prio: seq<Cipher>, s: Support, allow: seq<Cipher>, f: nat, e: nat, r: Option<Cipher>)
    requires f <= e < |prio| && BestOf(prio, s, allow, f, e, r)
    ensures r.Some? && r.value in prio && Usable(r.value, s, allow)
  {
  }

  lemma AloneIsFirst(prio: seq<Cipher>, s: Support, allow: seq<Cipher>, f: nat, r: Option<Cipher>)
    requires FirstUsable(prio, s, allow, f)
    requires forall f: nat, e: nat :: FirstGroup(prio, None, s, allow, f, e) ==> BestOf(prio, s, allow, f, e, r)
    ensures r == Some(prio[f])
  {
    assert FirstGroup(prio, None, s, allow, f, f);
    assert BestOf(prio, s, allow, f, f, r);
  }
}
