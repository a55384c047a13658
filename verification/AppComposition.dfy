/** Composing the application from the enabled capabilities (apps/api/src/app-composition.ts), for any
    table of owned modules, controllers or providers. */
module AppComposition {
  import opened Sequences
  import opened TenantSchema

  datatype Owner = Foundation | Owned(capability: Capability)

  datatype Item<V> = Item(owner: Owner, value: V)

  predicate IsEnabled(capabilities: seq<Capability>, owner: Owner) {
    owner == Foundation || owner.capability in capabilities
  }

  function EnabledBy<V>(capabilities: seq<Capability>): Item<V> -> bool {
    (item: Item<V>) => IsEnabled(capabilities, item.owner)
  }

  function Values<V>(items: seq<Item<V>>): (values: seq<V>)
    ensures |values| == |items|
    ensures forall i :: 0 <= i < |items| ==> values[i] == items[i].value
  {
    seq(|items|, i requires 0 <= i < |items| => items[i].value)
  }

  function Kept<V>(table: seq<Item<V>>, capabilities: seq<Capability>): seq<Item<V>> {
    Filter(EnabledBy(capabilities), table)
  }

  function Compose<V>(table: seq<Item<V>>, capabilities: seq<Capability>): seq<V> {
    Values(Kept(table, capabilities))
  }

  /** What fewer capabilities compose is what more of them compose, with items left out and nothing
      moved or added; the order in which capabilities are listed does not matter. */
  lemma ComposeIsMonotone<V>(table: seq<Item<V>>, fewer: seq<Capability>, more: seq<Capability>)
    requires forall c :: c in fewer ==> c in more
    ensures Kept(table, fewer) == Filter(EnabledBy(fewer), Kept(table, more))
    ensures forall v :: v in Compose(table, fewer) ==> v in Compose(table, more)
    ensures (forall c :: c in more ==> c in fewer) ==> Compose(table, fewer) == Compose(table, more)
  {
    FilterFilter(EnabledBy(fewer), EnabledBy(more), EnabledBy(fewer), table);
    forall v | v in Compose(table, fewer) ensures v in Compose(table, more) {
      var i :| 0 <= i < |Kept(table, fewer)| && Kept(table, fewer)[i].value == v;
      assert Kept(table, fewer)[i] in Kept(table, more);
      var j :| 0 <= j < |Kept(table, more)| && Kept(table, more)[j] == Kept(table, fewer)[i];
      assert Compose(table, more)[j] == v;
    }
    if forall c :: c in more ==> c in fewer {
      FilterCongruent(EnabledBy(fewer), EnabledBy(more), table);
    }
  }

  // ----------------------------------------------------------------------------------------
  // Resolving a token: the last provider wins
  // ----------------------------------------------------------------------------------------

  function Resolve<V, T(==)>(token: V -> T, providers: seq<V>, t: T): Option<V> {
    if providers == [] then None
    else
      var last := providers[|providers| - 1];
      if token(last) == t then Some(last) else Resolve(token, providers[..|providers| - 1], t)
  }

  /** The provider at `k` is the last enabled one for `t`. */
  predicate Wins<V, T(==)>(token: V -> T, table: seq<Item<V>>, capabilities: seq<Capability>, t: T, k: nat) {
    && k < |table| && token(table[k].value) == t && IsEnabled(capabilities, table[k].owner)
    && forall j :: k < j < |table| && token(table[j].value) == t ==> !IsEnabled(capabilities, table[j].owner)
  }

  lemma {:induction false} LastEnabledWins<V, T>(token: V -> T, table: seq<Item<V>>, capabilities: seq<Capability>, t: T)
    ensures forall k: nat :: Wins(token, table, capabilities, t, k) ==>
      Resolve(token, Compose(table, capabilities), t) == Some(table[k].value)
    ensures Resolve(token, Compose(table, capabilities), t).Some? ==>
      exists k: nat :: Wins(token, table, capabilities, t, k)
    decreases |table|
  {
    if table != [] {
      var n := |table| - 1;
      var before, last := table[..n], table[n];
      LastEnabledWins(token, before, capabilities, t);
      ComposeLast(table, capabilities);
      var composed := Compose(before, capabilities);
      var all := Compose(table, capabilities);
      if IsEnabled(capabilities, last.owner) {
        assert all[..|all| - 1] == composed;
      } else {
        assert all == composed;
      }
      if IsEnabled(capabilities, last.owner) && token(last.value) == t {
        assert Wins(token, table, capabilities, t, n);
      } else {
        assert Resolve(token, all, t) == Resolve(token, composed, t);
        forall k: nat ensures Wins(token, table, capabilities, t, k) <==> Wins(token, before, capabilities, t, k) {
          WinsBelow(token, table, capabilities, t, k);
        }
        forall k: nat | Wins(token, table, capabilities, t, k)
          ensures Resolve(token, Compose(table, capabilities), t) == Some(table[k].value)
        {
          assert Wins(token, before, capabilities, t, k) && before[k] == table[k];
        }
      }
    }
  }

  lemma WinsBelow<V, T>(token: V -> T, table: seq<Item<V>>, capabilities: seq<Capability>, t: T, k: nat)
    requires table != []
    requires token(table[|table| - 1].value) == t ==> !IsEnabled(capabilities, table[|table| - 1].owner)
    ensures Wins(token, table, capabilities, t, k) <==> Wins(token, table[..|table| - 1], capabilities, t, k)
  {
    var before := table[..|table| - 1];
    assert forall j :: 0 <= j < |before| ==> before[j] == table[j];
  }

  lemma ComposeLast<V>(table: seq<Item<V>>, capabilities: seq<Capability>)
    requires table != []
    ensures Compose(table, capabilities) == Compose(table[..|table| - 1], capabilities)
      + if IsEnabled(capabilities, table[|table| - 1].owner) then [table[|table| - 1].value] else []
  {
    assert table[..|table| - 1 + 1] == table;
    FilterNext(EnabledBy(capabilities), table, |table| - 1);
  }

  /** A default and, behind it, an override of the same token: the override is resolved exactly when
      its owner is enabled; without it the default is, if its owner is enabled. */
  lemma OverrideReplacesTheDefault<V, T>(
    token: V -> T, table: seq<Item<V>>, capabilities: seq<Capability>, t: T, default: nat, override: nat)
    requires default < override < |table|
    requires forall k :: 0 <= k < |table| ==> (token(table[k].value) == t <==> k == default || k == override)
    ensures Resolve(token, Compose(table, capabilities), t)
         == if IsEnabled(capabilities, table[override].owner) then Some(table[override].value)
            else if IsEnabled(capabilities, table[default].owner) then Some(table[default].value)
            else None
  {
    LastEnabledWins(token, table, capabilities, t);
    if IsEnabled(capabilities, table[override].owner) {
      assert Wins(token, table, capabilities, t, override);
    } else if IsEnabled(capabilities, table[default].owner) {
      assert Wins(token, table, capabilities, t, default);
    }
  }

  /** The same pair in an accepted tenant whose override's owner depends on the default's owner: the
      token resolves exactly when the default's owner is enabled, never to nothing below an override. */
  lemma TokenFollowsItsDefault<V, T>(
    token: V -> T, table: seq<Item<V>>, config: Config, t: T, default: nat, override: nat)
    requires default < override < |table|
    requires forall k :: 0 <= k < |table| ==> (token(table[k].value) == t <==> k == default || k == override)
    requires table[default].owner.Owned? && table[override].owner.Owned?
    requires table[default].owner.capability in Dependencies(table[override].owner.capability)
    requires Accepted(config)
    ensures Resolve(token, Compose(table, config.capabilities), t).Some?
       <==> table[default].owner.capability in config.capabilities
  {
    OverrideReplacesTheDefault(token, table, config.capabilities, t, default, override);
    assert !Violates(config, MissingDependency(table[override].owner.capability, table[default].owner.capability));
  }

  /** What is composed: the items owned by the foundation, always, and those whose capability is enabled,
      in the order of the table. */
  lemma {:induction false} ComposedItems<V>(table: seq<Item<V>>, capabilities: seq<Capability>)
    ensures forall item :: item in Kept(table, capabilities) <==>
      item in table && (item.owner.Foundation? || item.owner.capability in capabilities)
    ensures |Compose(table, capabilities)| == |Kept(table, capabilities)|
    ensures forall i :: 0 <= i < |Kept(table, capabilities)| ==>
      Compose(table, capabilities)[i] == Kept(table, capabilities)[i].value
    ensures (forall item :: item in table ==> item.owner.Foundation?) ==> Kept(table, capabilities) == table
  {
    if forall item :: item in table ==> item.owner.Foundation? { FilterAll(EnabledBy(capabilities), table); }
  }
}
