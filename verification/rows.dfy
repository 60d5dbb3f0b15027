/** Rows and dicts as both database adapters hold them: an ordered list of
    key/value entries, the way a Python dict keeps insertion order. */
module Rows {
  /** A column value. `Null` is Python's `None`. */
  datatype Value = Null | Int(i: int) | Str(s: string) | Dict(entries: seq<(string, Value)>)

  /** A row or a dict of column values, keys in insertion order. */
  type Record = seq<(string, Value)>

  function Keys(r: Record): (ks: seq<string>)
    ensures |ks| == |r| && forall i :: 0 <= i < |r| ==> ks[i] == r[i].0
  {
    if |r| == 0 then [] else [r[0].0] + Keys(r[1..])
  }

  function Values(r: Record): (vs: seq<Value>)
    ensures |vs| == |r| && forall i :: 0 <= i < |r| ==> vs[i] == r[i].1
  {
    if |r| == 0 then [] else [r[0].1] + Values(r[1..])
  }

  /** `k in r`. */
  predicate HasKey(r: Record, k: string) {
    exists i :: 0 <= i < |r| && r[i].0 == k
  }

  /** A dict never holds a key twice. */
  predicate UniqueKeys(r: Record) {
    forall i, j :: 0 <= i < j < |r| ==> r[i].0 != r[j].0
  }

  /** `r[k]`: the value of the first entry with key `k`. */
  function Lookup(r: Record, k: string): (v: Value)
    requires HasKey(r, k)
    ensures exists i :: 0 <= i < |r| && r[i] == (k, v) && forall j :: 0 <= j < i ==> r[j].0 != k
  {
    if r[0].0 == k then r[0].1
    else
      assert HasKey(r[1..], k) by {
        var i :| 0 <= i < |r| && r[i].0 == k;
        assert r[1..][i - 1].0 == k;
      }
      var v := Lookup(r[1..], k);
      var i :| 0 <= i < |r[1..]| && r[1..][i] == (k, v) && forall j :: 0 <= j < i ==> r[1..][j].0 != k;
      assert r[i + 1] == (k, v);
      v
  }

  /** `r.get(k)`: the value under `k`, or `None` when `k` is absent. */
  function Get(r: Record, k: string): (v: Value)
    ensures !HasKey(r, k) ==> v == Null
  {
    if HasKey(r, k) then Lookup(r, k) else Null
  }

  /** `r[k] = v`: the entry under `k` is overwritten in place, or a new entry
      goes at the end. */
  function SetKey(r: Record, k: string, v: Value): (s: Record)
    ensures HasKey(s, k) && Get(s, k) == v
    ensures HasKey(r, k) ==> |s| == |r| && Keys(s) == Keys(r)
    ensures !HasKey(r, k) ==> s == r + [(k, v)]
    ensures forall k' :: k' != k ==> (HasKey(s, k') <==> HasKey(r, k')) && Get(s, k') == Get(r, k')
  {
    if |r| == 0 then
      assert SetKeyPost(r, k, v, [(k, v)]) by { SetKeyEmpty(k, v); }
      [(k, v)]
    else if r[0].0 == k then
      assert SetKeyPost(r, k, v, [(k, v)] + r[1..]) by { SetKeyFront(r, k, v); }
      [(k, v)] + r[1..]
    else
      var t := SetKey(r[1..], k, v);
      assert SetKeyPost(r, k, v, [r[0]] + t) by {
        SetKeyCons(r[0], r[1..], t, k, v);
        assert [r[0]] + r[1..] == r;
      }
      [r[0]] + t
  }

  /** What `r[k] = v` promises, as a relation between `r` and the result `s`. */
  ghost predicate SetKeyPost(r: Record, k: string, v: Value, s: Record) {
    && HasKey(s, k) && Get(s, k) == v
    && (HasKey(r, k) ==> |s| == |r| && Keys(s) == Keys(r))
    && (!HasKey(r, k) ==> s == r + [(k, v)])
    && forall k' :: k' != k ==> (HasKey(s, k') <==> HasKey(r, k')) && Get(s, k') == Get(r, k')
  }

  lemma SetKeyEmpty(k: string, v: Value)
    ensures SetKeyPost([], k, v, [(k, v)])
  {
    HasKeyCons((k, v), [], k);
    GetCons((k, v), [], k);
    forall k' | k' != k ensures !HasKey([(k, v)], k') && Get([(k, v)], k') == Null {
      HasKeyCons((k, v), [], k');
    }
    assert [] + [(k, v)] == [(k, v)];
  }

  lemma SetKeyFront(r: Record, k: string, v: Value)
    requires |r| > 0 && r[0].0 == k
    ensures SetKeyPost(r, k, v, [(k, v)] + r[1..])
  {
    var s := [(k, v)] + r[1..];
    assert r == [r[0]] + r[1..];
    HasKeyCons((k, v), r[1..], k);
    GetCons((k, v), r[1..], k);
    forall k' | k' != k ensures (HasKey(s, k') <==> HasKey(r, k')) && Get(s, k') == Get(r, k') {
      HasKeyCons((k, v), r[1..], k');
      HasKeyCons(r[0], r[1..], k');
      GetCons((k, v), r[1..], k');
      GetCons(r[0], r[1..], k');
    }
    assert Keys(s) == [k] + Keys(r[1..]);
    HasKeyCons(r[0], r[1..], k);
  }

  /** SetKey past a head entry with another key keeps that entry in front. */
  lemma SetKeyCons(h: (string, Value), rest: Record, t: Record, k: string, v: Value)
    requires h.0 != k
    requires SetKeyPost(rest, k, v, t)
    ensures SetKeyPost([h] + rest, k, v, [h] + t)
  {
    var s, r := [h] + t, [h] + rest;
    HasKeyCons(h, t, k);
    HasKeyCons(h, rest, k);
    GetCons(h, t, k);
    forall k' | k' != k
      ensures (HasKey(s, k') <==> HasKey(r, k')) && Get(s, k') == Get(r, k')
    {
      HasKeyCons(h, t, k');
      HasKeyCons(h, rest, k');
      GetCons(h, t, k');
      GetCons(h, rest, k');
    }
    if HasKey(r, k) {
      assert Keys(s) == [h.0] + Keys(t);
      assert Keys(r) == [h.0] + Keys(rest);
    }
    if !HasKey(r, k) {
      assert [h] + (rest + [(k, v)]) == [h] + rest + [(k, v)];
    }
  }

  lemma HasKeyCons(h: (string, Value), t: Record, k: string)
    ensures HasKey([h] + t, k) <==> h.0 == k || HasKey(t, k)
  {
    var s := [h] + t;
    if h.0 == k {
      assert s[0].0 == k;
    }
    if HasKey(t, k) {
      var i :| 0 <= i < |t| && t[i].0 == k;
      assert s[i + 1].0 == k;
    }
    if HasKey(s, k) && h.0 != k {
      var i :| 0 <= i < |s| && s[i].0 == k;
      assert t[i - 1].0 == k;
    }
  }

  lemma GetCons(h: (string, Value), t: Record, k: string)
    ensures Get([h] + t, k) == if h.0 == k then h.1 else Get(t, k)
  {
    HasKeyCons(h, t, k);
    assert ([h] + t)[1..] == t;
  }
}
