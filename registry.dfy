/** The element registry: the table from metadata key to tracked `<meta>`
    element (sherby-metadata.js:168-186), seeded once from the elements already
    in the page. */
module Registry {
  import opened JsValues
  import opened Dom

  /** Key to the identity of the tracked element. */
  type Table = map<string, nat>

  /** No element is tracked under two keys. */
  predicate Injective(table: Table) {
    forall k1, k2 :: k1 in table && k2 in table && k1 != k2 ==> table[k1] != table[k2]
  }

  /** The key an existing element is adopted under: `element.name` when it is
      non-empty, else `element.getAttribute('property')`; `None` when that is
      `null` or `""` as well (an element the registry skips). */
  function SeedKey(m: Meta): (k: Option<string>)
    ensures k.Some? ==> k.value != ""
    ensures m.name != "" ==> k == Some(m.name)
    ensures m.name == "" ==> k == (if m.property == Some("") then None else m.property)
  {
    var key := if m.name != "" then Some(m.name) else m.property;
    if key == Some("") then None else key
  }

  /** The registry built from `metas` in document order: each element is
      entered under its seed key, a later element replacing an earlier one
      with the same key. */
  function Seed(metas: seq<Meta>): (r: Table)
    ensures "" !in r
    ensures |r.Keys| <= |metas|
  {
    if metas == [] then map[]
    else
      var table := Seed(metas[..|metas| - 1]);
      var m := metas[|metas| - 1];
      match SeedKey(m)
      case Some(k) => table[k := m.id]
      case None => table
  }

  /** Seeding tracks only elements it scanned, each under a single key. */
  lemma {:induction false} SeedTracksScanned(metas: seq<Meta>)
    requires IdsDistinct(metas)
    ensures Seed(metas).Values <= Ids(metas)
    ensures Injective(Seed(metas))
  {
    if metas != [] {
      var init, m := metas[..|metas| - 1], metas[|metas| - 1];
      assert IdsDistinct(init) by {
        forall a, b | 0 <= a < b < |init| ensures init[a].id != init[b].id {
          assert init[a] == metas[a] && init[b] == metas[b];
        }
      }
      SeedTracksScanned(init);
      var table := Seed(init);
      assert Ids(init) <= Ids(metas) by {
        forall x | x in init ensures x in metas {
          var j :| 0 <= j < |init| && init[j] == x;
          assert metas[j] == x;
        }
      }
      assert m.id !in Ids(init) by {
        forall x | x in init ensures x.id != m.id {
          var j :| 0 <= j < |init| && init[j] == x;
          assert metas[j] == x;
        }
      }
      assert m.id in Ids(metas) by {
        assert m in metas;
      }
      match SeedKey(m)
      case None =>
      case Some(k) =>
        var t := table[k := m.id];
        assert Seed(metas) == t;
        forall x | x in t.Values ensures x in Ids(metas) {
          var k' :| k' in t && t[k'] == x;
          if k' != k {
            assert table[k'] in table.Values;
          }
        }
        forall k1, k2 | k1 in t && k2 in t && k1 != k2 ensures t[k1] != t[k2] {
          if k1 != k {
            assert t[k1] == table[k1] && table[k1] in table.Values;
          }
          if k2 != k {
            assert t[k2] == table[k2] && table[k2] in table.Values;
          }
        }
    }
  }

  /** Exactly the elements with a seed key get one. */
  lemma {:induction false} SeedKeys(metas: seq<Meta>, k: string)
    ensures k in Seed(metas) <==> exists i :: 0 <= i < |metas| && SeedKey(metas[i]) == Some(k)
  {
    if metas != [] {
      var init := metas[..|metas| - 1];
      SeedKeys(init, k);
      if k in Seed(init) {
        var i :| 0 <= i < |init| && SeedKey(init[i]) == Some(k);
        assert metas[i] == init[i];
      }
      if exists i :: 0 <= i < |metas| && SeedKey(metas[i]) == Some(k) {
        var i :| 0 <= i < |metas| && SeedKey(metas[i]) == Some(k);
        if i < |init| {
          assert init[i] == metas[i];
        }
      }
    }
  }

  /** Last wins: a key is mapped to the last element in document order that
      carries it. */
  lemma {:induction false} SeedLastWins(metas: seq<Meta>, i: nat, k: string)
    requires i < |metas| && SeedKey(metas[i]) == Some(k)
    requires forall j :: i < j < |metas| ==> SeedKey(metas[j]) != Some(k)
    ensures k in Seed(metas) && Seed(metas)[k] == metas[i].id
  {
    var init := metas[..|metas| - 1];
    if i < |metas| - 1 {
      assert SeedKey(metas[|metas| - 1]) != Some(k);
      SeedLastWins(init, i, k);
    }
  }

  /** An element the reconciler creates is adopted under its own key by a
      later seeding, unless the key is empty. */
  lemma SeedReadsBackNewMeta(id: nat, key: string, v: Value)
    ensures SeedKey(NewMeta(id, key, v)) == if key == "" then None else Some(key)
  {
  }

  /** The document-wide scan the component performs:
      `document.querySelectorAll('meta')` visits the head's `<meta>` elements and
      then those elsewhere in the document (`others`), in document order. */
  function SeedDocument(head: seq<Meta>, others: seq<Meta>): (r: Table)
    ensures forall k | k in Seed(head) :: k in r
    ensures forall k | k in Seed(others) :: k in r && r[k] == Seed(others)[k]
  {
    SeedConcat(head, others);
    Seed(head + others)
  }

  /** Seeding from `a` and then `b`: every key of `a` stays tracked, and a key
      carried in `b` is tracked as `b` alone would track it. */
  lemma {:induction false} SeedConcat(a: seq<Meta>, b: seq<Meta>)
    ensures forall k | k in Seed(a) :: k in Seed(a + b)
    ensures forall k | k in Seed(b) :: k in Seed(a + b) && Seed(a + b)[k] == Seed(b)[k]
  {
    if b == [] {
      assert a + b == a;
    } else {
      var init := b[..|b| - 1];
      SeedConcat(a, init);
      assert (a + b)[..|a + b| - 1] == a + init;
      assert (a + b)[|a + b| - 1] == b[|b| - 1];
    }
  }

  /** The document-wide scan tracks an element outside the head: with a
      `<meta name="description">` in the body and none in the head, the key
      `description` is tracked, and a later falsy `description` would call
      `document.head.removeChild` on an element the head does not contain. */
  lemma SeedDocumentTracksOutsideHead()
    ensures var table := SeedDocument([], [Meta(0, "description", None, Str("Old"))]);
            "description" in table && table["description"] !in Ids([])
  {
    var body := [Meta(0, "description", None, Str("Old"))];
    assert [] + body == body;
    assert body[..0] == [];
  }
}
