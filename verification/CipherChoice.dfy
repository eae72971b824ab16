/** The server's choice of a cipher suite (ssl/handshake_server.cc, ssl3_choose_cipher). */
module CipherChoice {
  import opened Common

  /** The fields of SSL_CIPHER the choice looks at. */
  datatype Cipher = Cipher(id: nat, minVersion: nat, maxVersion: nat, keyExchange: bv32, authentication: bv32)

  /** ssl_cipher_preference_list_st: in `inGroup`, 1 says that the cipher is not the last of its
      equal-preference group and 0 that it is. */
  datatype Preferences = Preferences(ciphers: seq<Cipher>, inGroup: seq<nat>)

  ghost predicate PreferencesOk(p: Preferences) {
    && |p.inGroup| == |p.ciphers|
    && forall i :: 0 <= i < |p.inGroup| ==> p.inGroup[i] == 0 || p.inGroup[i] == 1
  }

  /** What the connection supports: its version and the usable key exchanges and authentications. */
  datatype Config = Config(version: nat, maskK: bv32, maskA: bv32)

  predicate Usable(c: Cipher, config: Config) {
    && c.minVersion <= config.version <= c.maxVersion
    && c.keyExchange & config.maskK != 0
    && c.authentication & config.maskA != 0
  }

  /** prio[i] is usable and allowed. */
  ghost predicate Good(prio: seq<Cipher>, allow: seq<Cipher>, config: Config, i: int) {
    0 <= i < |prio| && Usable(prio[i], config) && prio[i] in allow
  }

  /** prio[i] is the first good cipher. */
  ghost predicate FirstGood(prio: seq<Cipher>, allow: seq<Cipher>, config: Config, i: int) {
    Good(prio, allow, config, i) && forall j :: Good(prio, allow, config, j) ==> i <= j
  }

  /** k is where c first occurs in s. */
  ghost predicate FirstAt(s: seq<Cipher>, c: Cipher, k: int) {
    0 <= k < |s| && s[k] == c && forall j :: 0 <= j < k ==> s[j] != c
  }

  /** c is not named after d. */
  ghost predicate NoLater(s: seq<Cipher>, c: Cipher, d: Cipher) {
    forall m, n :: FirstAt(s, c, m) && FirstAt(s, d, n) ==> m <= n
  }

  /** No group ends in [i, j). */
  ghost predicate Together(flags: seq<nat>, i: int, j: int) {
    forall k :: i <= k < j && 0 <= k < |flags| ==> flags[k] == 1
  }

  ghost predicate SameGroup(flags: seq<nat>, i: int, j: int) {
    Together(flags, i, j) && Together(flags, j, i)
  }

  /** The group of i has a last element, as every group of a proper list has. */
  ghost predicate Closed(flags: seq<nat>, i: int) {
    exists k :: i <= k < |flags| && 0 <= k && flags[k] == 0
  }

  /** c is the best choice of the preference list p for a client with list `allow`: it stands in the
      first group that has a good cipher, and within that group the client names it first. */
  ghost predicate BestAt(p: Preferences, allow: seq<Cipher>, config: Config, c: Cipher, i: int) {
    && Good(p.ciphers, allow, config, i) && p.ciphers[i] == c
    && Closed(p.inGroup, i)
    && (forall j :: Good(p.ciphers, allow, config, j) && j < i ==> SameGroup(p.inGroup, j, i))
    && (forall j :: Good(p.ciphers, allow, config, j) && SameGroup(p.inGroup, i, j) ==> NoLater(allow, c, p.ciphers[j]))
  }

  /** sk_SSL_CIPHER_find: the first position of c. */
  method Find(s: seq<Cipher>, c: Cipher) returns (index: Option<nat>)
    ensures index.None? <==> c !in s
    ensures index.Some? ==> FirstAt(s, c, index.value)
  {
    for k := 0 to |s|
      invariant forall j :: 0 <= j < k ==> s[j] != c
    {
      if s[k] == c {
        return Some(k);
      }
    }
    index := None;
  }

  /** The loop under server preference. */
  method ChooseGrouped(p: Preferences, allow: seq<Cipher>, config: Config) returns (r: Option<Cipher>)
    requires PreferencesOk(p)
    ensures r.Some? ==> exists i :: BestAt(p, allow, config, r.value, i)
    ensures r.None? <==> forall i :: Good(p.ciphers, allow, config, i) ==> !Closed(p.inGroup, i)
  {
    hide Usable;
    var prio, flags := p.ciphers, p.inGroup;
    var groupMin: int := -1;
    ghost var start, best := 0, 0;
    for i := 0 to |prio|
      invariant 0 <= start <= i && (start == 0 || flags[start - 1] == 0)
      invariant forall k :: start <= k < i ==> flags[k] == 1
      invariant forall j :: Good(prio, allow, config, j) && j < i ==> start <= j
      invariant groupMin == -1 ==> forall j :: Good(prio, allow, config, j) && j < i ==> false
      invariant groupMin != -1 ==>
                  start <= best < i && Good(prio, allow, config, best) && FirstAt(allow, prio[best], groupMin)
      invariant groupMin != -1 ==>
                  forall j, n ::
                    Good(prio, allow, config, j) && j < i && FirstAt(allow, prio[j], n) ==> groupMin <= n
    {
      var c := prio[i];
      ghost var groupMin0, best0 := groupMin, best;
      if Usable(c, config) {
        var found := Find(allow, c);
        if found.Some? {
          assert Good(prio, allow, config, i);
          var cipherIndex := found.value;
          if flags[i] == 1 {
            if groupMin == -1 || groupMin > cipherIndex {
              groupMin, best := cipherIndex, i;
            }
          } else {
            best := if groupMin != -1 && groupMin < cipherIndex then best else i;
            if groupMin != -1 && groupMin < cipherIndex {
              cipherIndex := groupMin;
            }
            r := Some(allow[cipherIndex]);
            assert FirstAt(allow, prio[best], cipherIndex);
            assert forall j, n ::
                Good(prio, allow, config, j) && j <= i && FirstAt(allow, prio[j], n) ==> cipherIndex <= n;
            LeaveGroup(p, allow, config, start, i, best, cipherIndex);
            return;
          }
        }
      }
      if flags[i] == 0 {
        if groupMin != -1 {
          r := Some(allow[groupMin]);
          LeaveGroup(p, allow, config, start, i, best, groupMin);
          return;
        }
        start := i + 1;
      }
    }
    r := None;
  }

  /** A group that ends at i, with `best` the good cipher of it the client names first. */
  lemma LeaveGroup(p: Preferences, allow: seq<Cipher>, config: Config, start: nat, i: nat, best: nat, k: nat)
    requires PreferencesOk(p) && start <= i < |p.ciphers| && (start == 0 || p.inGroup[start - 1] == 0)
    requires forall m :: start <= m < i ==> p.inGroup[m] == 1
    requires p.inGroup[i] == 0
    requires forall j :: Good(p.ciphers, allow, config, j) && j < i ==> start <= j
    requires start <= best <= i && Good(p.ciphers, allow, config, best) && FirstAt(allow, p.ciphers[best], k)
    requires forall j, n :: Good(p.ciphers, allow, config, j) && j <= i && FirstAt(allow, p.ciphers[j], n) ==> k <= n
    ensures BestAt(p, allow, config, allow[k], best)
  {
    hide Usable;
    var c := allow[k];
    assert Closed(p.inGroup, best);
    forall j | Good(p.ciphers, allow, config, j) && SameGroup(p.inGroup, best, j)
      ensures NoLater(allow, c, p.ciphers[j])
    {
      if i < j {
        assert false;
      }
    }
  }

  /** ssl3_choose_cipher. `client` is None when the client's list does not parse. */
  method ChooseCipher(client: Option<seq<Cipher>>, server: Preferences, serverPreference: bool, config: Config)
    returns (r: Option<Cipher>)
    requires PreferencesOk(server)
    ensures client.None? ==> r.None?
    ensures client.Some? && serverPreference ==>
      && (r.Some? ==> exists i :: BestAt(server, client.value, config, r.value, i))
      && (r.None? <==> forall i :: Good(server.ciphers, client.value, config, i) ==> !Closed(server.inGroup, i))
    ensures client.Some? && !serverPreference ==>
      && (r.Some? ==> exists i :: FirstGood(client.value, server.ciphers, config, i) && client.value[i] == r.value)
      && (r.None? <==> forall i :: !Good(client.value, server.ciphers, config, i))
  {
    if client.None? {
      return None;
    }
    if serverPreference {
      r := ChooseGrouped(server, client.value, config);
    } else {
      var prio := client.value;
      for i := 0 to |prio|
        invariant forall j :: 0 <= j < i ==> !Good(prio, server.ciphers, config, j)
      {
        if Usable(prio[i], config) {
          var found := Find(server.ciphers, prio[i]);
          if found.Some? {
            assert FirstGood(prio, server.ciphers, config, i);
            return Some(server.ciphers[found.value]);
          }
        }
      }
      r := None;
    }
  }

  /** The description of the best choice leaves no freedom. */
  lemma ChoiceUnique(p: Preferences, allow: seq<Cipher>, config: Config, c: Cipher, i: nat, d: Cipher, j: nat)
    requires PreferencesOk(p)
    requires BestAt(p, allow, config, c, i) && BestAt(p, allow, config, d, j)
    ensures c == d
  {
    hide Usable;
    assert SameGroup(p.inGroup, i, j) && SameGroup(p.inGroup, j, i);
    var m := FirstIndex(allow, c);
    var n := FirstIndex(allow, d);
    assert m <= n && n <= m;
  }

  lemma FirstIndex(s: seq<Cipher>, c: Cipher) returns (k: nat)
    requires c in s
    ensures FirstAt(s, c, k)
  {
    k := 0;
    while s[k] != c
      invariant k < |s| && forall j :: 0 <= j < k ==> s[j] != c
      decreases |s| - k
    {
      assert c in s[k + 1..] by {
        assert s == s[..k] + [s[k]] + s[k + 1..];
      }
      k := k + 1;
    }
  }

  /** Every cipher can be chosen from exactly when the last flag of the list is 0. */
  lemma AllClosed(p: Preferences)
    requires PreferencesOk(p) && |p.inGroup| > 0
    ensures (forall i :: 0 <= i < |p.inGroup| ==> Closed(p.inGroup, i)) <==> p.inGroup[|p.inGroup| - 1] == 0
  {
    var last := |p.inGroup| - 1;
    if p.inGroup[last] == 0 {
      assert forall i :: 0 <= i < |p.inGroup| ==> Closed(p.inGroup, i);
    } else {
      assert !Closed(p.inGroup, last);
    }
  }

  /** With a proper list, some good cipher is enough for a choice: the best one always exists. */
  lemma SomeChoice(p: Preferences, allow: seq<Cipher>, config: Config, i: nat)
    requires PreferencesOk(p) && Good(p.ciphers, allow, config, i)
    requires p.inGroup[|p.inGroup| - 1] == 0
    ensures !(forall j :: Good(p.ciphers, allow, config, j) ==> !Closed(p.inGroup, j))
  {
    hide Usable;
    AllClosed(p);
    assert Closed(p.inGroup, i);
  }
}
