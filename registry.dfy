/** The registry of `Signal`: a map from "class name + method name" to the live
    registration, and what the private `subscribe` loop and the `unSubScribe` loop
    leave in it. */
module Registry {
  import opened SignalTypes

  type Registers = map<string, RegisterInfo>

  /** The registry key: the class name immediately followed by the method name. */
  function Key(className: ClassName, methodName: string): (k: string)
    ensures |k| == |className| + |methodName|
    ensures k[..|className|] == className && k[|className|..] == methodName
  {
    className + methodName
  }

  /** The key a descriptor of an object of class `className` is registered under. */
  function KeyOf(className: ClassName, info: RegisterMethodInfo): string
  {
    Key(className, info.methodName)
  }

  /** All keys of a descriptor list. */
  function Keys(className: ClassName, infos: seq<RegisterMethodInfo>): set<string>
  {
    set i | 0 <= i < |infos| :: KeyOf(className, infos[i])
  }

  predicate DistinctKeys(className: ClassName, infos: seq<RegisterMethodInfo>)
  {
    forall i, j :: 0 <= i < j < |infos| ==> KeyOf(className, infos[i]) != KeyOf(className, infos[j])
  }

  /** The registry after subscribing `target` with `infos`: each descriptor in turn
      is inserted under its key, and the first key already present ends the batch. */
  function Subscribed(reg: Registers, target: Target, infos: seq<RegisterMethodInfo>): Registers
    decreases |infos|
  {
    if infos == [] then reg
    else
      var k := KeyOf(target.className, infos[0]);
      if k in reg then reg
      else Subscribed(reg[k := RegisterInfo(target, infos[0])], target, infos[1..])
  }

  /** Subscribing never drops or rebinds an existing registration, and every new
      entry is the target bound to one of its descriptors, under that descriptor's key. */
  lemma {:induction false} SubscribedFrame(reg: Registers, target: Target, infos: seq<RegisterMethodInfo>)
    ensures var r := Subscribed(reg, target, infos);
      && (forall k :: k in reg ==> k in r && r[k] == reg[k])
      && (forall k :: k in r && k !in reg ==>
           exists i :: 0 <= i < |infos| && k == KeyOf(target.className, infos[i]) && r[k] == RegisterInfo(target, infos[i]))
    decreases |infos|
  {
    if infos != [] {
      var k := KeyOf(target.className, infos[0]);
      if k !in reg {
        var reg' := reg[k := RegisterInfo(target, infos[0])];
        SubscribedFrame(reg', target, infos[1..]);
        var r := Subscribed(reg', target, infos[1..]);
        forall k' | k' in r && k' !in reg && k' != k
          ensures exists i :: 1 <= i < |infos| && k' == KeyOf(target.className, infos[i]) && r[k'] == RegisterInfo(target, infos[i])
        {
          var j :| 0 <= j < |infos[1..]| && k' == KeyOf(target.className, infos[1..][j]) && r[k'] == RegisterInfo(target, infos[1..][j]);
          assert infos[1..][j] == infos[j + 1];
        }
      }
    }
  }

  /** The registry after unsubscribing an object of class `className` described by
      `infos`: each key in turn is removed, and the first key not present ends the loop. */
  function Unsubscribed(reg: Registers, className: ClassName, infos: seq<RegisterMethodInfo>): (r: Registers)
    ensures r.Keys <= reg.Keys
    ensures forall k :: k in r ==> r[k] == reg[k]
    ensures forall k :: k in reg && k !in r ==> k in Keys(className, infos)
    decreases |infos|
  {
    if infos == [] then reg
    else
      var k := KeyOf(className, infos[0]);
      if k !in reg then reg
      else
        var r := Unsubscribed(reg - {k}, className, infos[1..]);
        assert forall k' :: k' in Keys(className, infos[1..]) ==> k' in Keys(className, infos) by {
          forall k' | k' in Keys(className, infos[1..]) ensures k' in Keys(className, infos) {
            var j :| 0 <= j < |infos[1..]| && k' == KeyOf(className, infos[1..][j]);
            assert infos[1..][j] == infos[j + 1];
          }
        }
        assert k == KeyOf(className, infos[0]);
        r
  }

  lemma KeysCons(className: ClassName, infos: seq<RegisterMethodInfo>)
    requires infos != []
    ensures Keys(className, infos) == {KeyOf(className, infos[0])} + Keys(className, infos[1..])
  {
    forall k | k in Keys(className, infos) ensures k in {KeyOf(className, infos[0])} + Keys(className, infos[1..]) {
      var i :| 0 <= i < |infos| && k == KeyOf(className, infos[i]);
      if i > 0 { assert infos[1..][i - 1] == infos[i]; }
    }
    forall k | k in Keys(className, infos[1..]) ensures k in Keys(className, infos) {
      var j :| 0 <= j < |infos[1..]| && k == KeyOf(className, infos[1..][j]);
      assert infos[1..][j] == infos[j + 1];
    }
  }

  /** When none of the target's keys is registered and the keys are pairwise
      distinct, subscribing adds exactly those keys, each bound to its descriptor. */
  lemma {:induction false} SubscribeFresh(reg: Registers, target: Target, infos: seq<RegisterMethodInfo>)
    requires Keys(target.className, infos) !! reg.Keys
    requires DistinctKeys(target.className, infos)
    ensures Subscribed(reg, target, infos).Keys == reg.Keys + Keys(target.className, infos)
    ensures forall i :: 0 <= i < |infos| ==>
      Subscribed(reg, target, infos)[KeyOf(target.className, infos[i])] == RegisterInfo(target, infos[i])
    decreases |infos|
  {
    if infos != [] {
      var c := target.className;
      var k := KeyOf(c, infos[0]);
      KeysCons(c, infos);
      var reg' := reg[k := RegisterInfo(target, infos[0])];
      var rest := infos[1..];
      forall j | 0 <= j < |rest| ensures KeyOf(c, rest[j]) != k {
        assert rest[j] == infos[j + 1];
      }
      assert DistinctKeys(c, rest) by {
        forall i, j | 0 <= i < j < |rest| ensures KeyOf(c, rest[i]) != KeyOf(c, rest[j]) {
          assert rest[i] == infos[i + 1] && rest[j] == infos[j + 1];
        }
      }
      assert Keys(c, rest) !! reg'.Keys;
      SubscribeFresh(reg', target, rest);
      SubscribedFrame(reg', target, rest);
      var r := Subscribed(reg', target, rest);
      assert Subscribed(reg, target, infos) == r;
      assert r.Keys == reg.Keys + Keys(c, infos);
      forall i | 0 <= i < |infos| ensures r[KeyOf(c, infos[i])] == RegisterInfo(target, infos[i]) {
        if i > 0 { assert rest[i - 1] == infos[i]; }
      }
    }
  }

  /** Meeting a key that is already present (present when the loop reaches it) ends
      the batch: descriptors after it are not inserted, the earlier inserts stay. */
  lemma {:induction false} SubscribeStopsAtPresentKey(reg: Registers, target: Target, infos: seq<RegisterMethodInfo>, j: nat)
    requires j < |infos|
    requires KeyOf(target.className, infos[j]) in Subscribed(reg, target, infos[..j])
    ensures Subscribed(reg, target, infos) == Subscribed(reg, target, infos[..j])
    decreases j
  {
    var c := target.className;
    if j == 0 {
      assert infos[..0] == [];
    } else {
      var k := KeyOf(c, infos[0]);
      assert infos[..j][0] == infos[0];
      if k !in reg {
        var reg' := reg[k := RegisterInfo(target, infos[0])];
        assert infos[..j][1..] == infos[1..][..j - 1];
        assert infos[1..][j - 1] == infos[j];
        SubscribeStopsAtPresentKey(reg', target, infos[1..], j - 1);
      }
    }
  }

  /** When every key of `infos` is registered and the keys are pairwise distinct,
      unsubscribing removes exactly those keys. */
  lemma {:induction false} UnsubscribeAllPresent(reg: Registers, className: ClassName, infos: seq<RegisterMethodInfo>)
    requires Keys(className, infos) <= reg.Keys
    requires DistinctKeys(className, infos)
    ensures Unsubscribed(reg, className, infos) == reg - Keys(className, infos)
    decreases |infos|
  {
    if infos != [] {
      var k := KeyOf(className, infos[0]);
      KeysCons(className, infos);
      var rest := infos[1..];
      forall j | 0 <= j < |rest| ensures KeyOf(className, rest[j]) != k {
        assert rest[j] == infos[j + 1];
      }
      assert DistinctKeys(className, rest) by {
        forall i, j | 0 <= i < j < |rest| ensures KeyOf(className, rest[i]) != KeyOf(className, rest[j]) {
          assert rest[i] == infos[i + 1] && rest[j] == infos[j + 1];
        }
      }
      UnsubscribeAllPresent(reg - {k}, className, rest);
      assert reg - {k} - Keys(className, rest) == reg - Keys(className, infos);
    }
  }

  /** Meeting a key that is not registered (when the loop reaches it) ends the loop:
      later keys stay, the earlier removals stay done. */
  lemma {:induction false} UnsubscribeStopsAtMissingKey(reg: Registers, className: ClassName, infos: seq<RegisterMethodInfo>, j: nat)
    requires j < |infos|
    requires KeyOf(className, infos[j]) !in Unsubscribed(reg, className, infos[..j])
    ensures Unsubscribed(reg, className, infos) == Unsubscribed(reg, className, infos[..j])
    decreases j
  {
    if j == 0 {
      assert infos[..0] == [];
    } else {
      var k := KeyOf(className, infos[0]);
      assert infos[..j][0] == infos[0];
      if k in reg {
        assert infos[..j][1..] == infos[1..][..j - 1];
        assert infos[1..][j - 1] == infos[j];
        UnsubscribeStopsAtMissingKey(reg - {k}, className, infos[1..], j - 1);
      }
    }
  }

  /** The induction behind the round trip: `inserted` holds the entries the subscribe
      loop has already added (and the unsubscribe loop already removed). */
  lemma {:induction false} RoundTripFrom(reg: Registers, inserted: Registers, target: Target, infos: seq<RegisterMethodInfo>)
    requires Keys(target.className, infos) !! reg.Keys
    requires inserted.Keys !! reg.Keys
    ensures Unsubscribed(Subscribed(reg + inserted, target, infos) - inserted.Keys, target.className, infos) == reg
    decreases |infos|
  {
    var c := target.className;
    if infos == [] {
      assert (reg + inserted) - inserted.Keys == reg;
    } else {
      KeysCons(c, infos);
      var k := KeyOf(c, infos[0]);
      assert k !in reg;
      if k in inserted {
        assert (reg + inserted) - inserted.Keys == reg;
      } else {
        var v := RegisterInfo(target, infos[0]);
        var inserted' := inserted[k := v];
        assert (reg + inserted)[k := v] == reg + inserted';
        var s := Subscribed(reg + inserted', target, infos[1..]);
        assert Subscribed(reg + inserted, target, infos) == s;
        SubscribedFrame(reg + inserted', target, infos[1..]);
        assert k in s - inserted.Keys;
        assert (s - inserted.Keys) - {k} == s - inserted'.Keys;
        RoundTripFrom(reg, inserted', target, infos[1..]);
      }
    }
  }

  /** Starting from a registry that holds none of the target's keys, subscribing and
      then unsubscribing the same target restores the registry exactly. */
  lemma SubscribeThenUnsubscribe(reg: Registers, target: Target, infos: seq<RegisterMethodInfo>)
    requires Keys(target.className, infos) !! reg.Keys
    ensures Unsubscribed(Subscribed(reg, target, infos), target.className, infos) == reg
  {
    var none: Registers := map[];
    assert reg + none == reg;
    assert Subscribed(reg, target, infos) - none.Keys == Subscribed(reg, target, infos);
    RoundTripFrom(reg, none, target, infos);
  }

  /** Two different (class, method) pairs can share a key, because the key joins the
      two names without a separator. */
  lemma KeyCollision()
    ensures Key("a.Foo", "barX") == Key("a.Foob", "arX")
  {
  }
}
