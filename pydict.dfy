/**
 * A Python `dict` with string keys: an association list in insertion order.
 * Assigning an existing key overwrites its value in place; assigning a new key
 * appends it. Column order of the evaluation tables follows this order.
 */
module PyDict {
  import opened Wrappers

  datatype Dict<V> = Dict(items: seq<(string, V)>)
  {
    ghost predicate Valid()
    {
      forall i, j :: 0 <= i < j < |items| ==> items[i].0 != items[j].0
    }

    function Keys(): (ks: seq<string>)
      ensures |ks| == |items|
      ensures forall i :: 0 <= i < |items| ==> ks[i] == items[i].0
      decreases |items|
    {
      if items == [] then [] else [items[0].0] + Dict(items[1..]).Keys()
    }

    function Get(k: string): (r: Option<V>)
      ensures r.None? <==> k !in Keys()
      ensures r.Some? ==> exists i :: 0 <= i < |items| && items[i] == (k, r.value)
      decreases |items|
    {
      if items == [] then None
      else if items[0].0 == k then Some(items[0].1)
      else Dict(items[1..]).Get(k)
    }

    /** `d.update(other)`: the assignments of `other`'s entries in order. */
    function Update(other: Dict<V>): Dict<V>
      decreases |other.items|
    {
      if other.items == [] then this
      else Set(other.items[0].0, other.items[0].1).Update(Dict(other.items[1..]))
    }

    /** Every value replaced by `f` of its key and value; keys and order kept. */
    function MapValues(f: (string, V) -> V): (d: Dict<V>)
      ensures d.Keys() == Keys()
      decreases |items|
    {
      if items == [] then this
      else Dict([(items[0].0, f(items[0].0, items[0].1))] + Dict(items[1..]).MapValues(f).items)
    }

    /** `d[k] = v`. */
    function Set(k: string, v: V): (d: Dict<V>)
      ensures d.Keys() == if k in Keys() then Keys() else Keys() + [k]
      decreases |items|
    {
      if items == [] then Dict([(k, v)])
      else if items[0].0 == k then Dict([(k, v)] + items[1..])
      else Dict([items[0]] + Dict(items[1..]).Set(k, v).items)
    }
  }

  function Empty<V>(): (d: Dict<V>)
    ensures d.Keys() == []
  {
    Dict([])
  }

  /** After `d[k] = v`, `d[k]` is `v` and every other key keeps its value. */
  lemma {:induction false} GetSet<V>(d: Dict<V>, k: string, v: V, k2: string)
    ensures d.Set(k, v).Get(k2) == if k2 == k then Some(v) else d.Get(k2)
    decreases |d.items|
  {
    if d.items != [] && d.items[0].0 != k {
      GetSet(Dict(d.items[1..]), k, v, k2);
    }
  }

  /** Assignment keeps keys distinct. */
  lemma {:induction false} SetValid<V>(d: Dict<V>, k: string, v: V)
    requires d.Valid()
    ensures d.Set(k, v).Valid()
    decreases |d.items|
  {
    var r := d.Set(k, v);
    if d.items != [] && d.items[0].0 != k {
      var tl := Dict(d.items[1..]);
      SetValid(tl, k, v);
      var t := tl.Set(k, v);
      forall j | 0 <= j < |t.items|
        ensures t.items[j].0 != d.items[0].0
      {
        assert t.Keys()[j] == t.items[j].0;
        assert d.items[0].0 !in tl.Keys() by {
          forall i | 0 <= i < |tl.items| ensures tl.Keys()[i] != d.items[0].0 {
            assert tl.items[i] == d.items[i + 1];
          }
        }
      }
      forall i, j | 0 <= i < j < |r.items| ensures r.items[i].0 != r.items[j].0 {
        if i > 0 {
          assert r.items[i] == t.items[i - 1] && r.items[j] == t.items[j - 1];
        } else {
          assert r.items[j] == t.items[j - 1];
        }
      }
    } else if d.items != [] {
      forall i, j | 0 <= i < j < |r.items| ensures r.items[i].0 != r.items[j].0 {
        if i > 0 {
          assert r.items[i] == d.items[i] && r.items[j] == d.items[j];
        } else {
          assert r.items[j] == d.items[j];
        }
      }
    }
  }

  /** After `a.update(b)`, a key of `b` has `b`'s value and every other key keeps `a`'s. */
  lemma {:induction false} GetUpdate<V>(a: Dict<V>, b: Dict<V>, k: string)
    requires b.Valid()
    ensures a.Update(b).Get(k) == if k in b.Keys() then b.Get(k) else a.Get(k)
    decreases |b.items|
  {
    if b.items != [] {
      var k0, v0 := b.items[0].0, b.items[0].1;
      var rest := Dict(b.items[1..]);
      assert rest.Valid() by {
        forall i, j | 0 <= i < j < |rest.items| ensures rest.items[i].0 != rest.items[j].0 {
          assert rest.items[i] == b.items[i + 1] && rest.items[j] == b.items[j + 1];
        }
      }
      GetUpdate(a.Set(k0, v0), rest, k);
      GetSet(a, k0, v0, k);
      assert k0 !in rest.Keys() by {
        forall i | 0 <= i < |rest.items| ensures rest.Keys()[i] != k0 {
          assert rest.items[i] == b.items[i + 1];
        }
      }
    }
  }

  /** Mapping values commutes with assignment. */
  lemma {:induction false} MapValuesSet<V>(d: Dict<V>, f: (string, V) -> V, k: string, v: V)
    ensures d.Set(k, v).MapValues(f) == d.MapValues(f).Set(k, f(k, v))
    decreases |d.items|
  {
    if d.items != [] && d.items[0].0 != k {
      var tl := Dict(d.items[1..]);
      MapValuesSet(tl, f, k, v);
      var lhs := d.Set(k, v);
      assert lhs.items == [d.items[0]] + tl.Set(k, v).items;
      assert Dict(lhs.items[1..]) == tl.Set(k, v);
      var m := d.MapValues(f);
      assert Dict(m.items[1..]) == tl.MapValues(f);
    } else if d.items != [] {
      var lhs := d.Set(k, v);
      assert Dict(lhs.items[1..]) == Dict(d.items[1..]);
      var m := d.MapValues(f);
      assert Dict(m.items[1..]) == Dict(d.items[1..]).MapValues(f);
    }
  }

  /** A mapped dictionary holds `f(k, v)` where the original held `v`. */
  lemma {:induction false} GetMapValues<V>(d: Dict<V>, f: (string, V) -> V, k: string)
    ensures d.MapValues(f).Get(k) == if d.Get(k).Some? then Some(f(k, d.Get(k).value)) else None
    decreases |d.items|
  {
    if d.items != [] && d.items[0].0 != k {
      var tl := Dict(d.items[1..]);
      GetMapValues(tl, f, k);
      var m := d.MapValues(f);
      assert Dict(m.items[1..]) == tl.MapValues(f);
    }
  }

  /** `a.update(b)` keeps keys distinct. */
  lemma {:induction false} UpdateValid<V>(a: Dict<V>, b: Dict<V>)
    requires a.Valid()
    ensures a.Update(b).Valid()
    decreases |b.items|
  {
    if b.items != [] {
      SetValid(a, b.items[0].0, b.items[0].1);
      UpdateValid(a.Set(b.items[0].0, b.items[0].1), Dict(b.items[1..]));
    }
  }
}
