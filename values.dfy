/** PHP values as the Integration sees them: nested ordered arrays with
    unique string keys, scalars and null. */
module Values {

  datatype Option<+T> = None | Some(value: T)

  type Key = string

  /** A PHP value. `Str` stands for every non-null scalar (string, int,
      float, bool): the code under study only tells null, array and
      "anything else" apart. */
  datatype Value = Null | Str(s: string) | Arr(entries: Entries)

  /** An ordered PHP array: key/value pairs in insertion order. */
  type Entries = seq<(Key, Value)>

  /** The keys of an array, in order. */
  function KeysOf(e: Entries): (ks: seq<Key>)
    ensures |ks| == |e|
    ensures forall i :: 0 <= i < |e| ==> ks[i] == e[i].0
  {
    seq(|e|, i requires 0 <= i < |e| => e[i].0)
  }

  /** PHP arrays never hold the same key twice. */
  predicate DistinctKeys(e: Entries)
  {
    forall i, j :: 0 <= i < j < |e| ==> e[i].0 != e[j].0
  }

  /** Position of key `k` in `e`, or -1 when it is absent. */
  function IndexOf(e: Entries, k: Key): (r: int)
    ensures -1 <= r < |e|
    ensures r >= 0 ==> e[r].0 == k && forall j :: 0 <= j < r ==> e[j].0 != k
    ensures r == -1 <==> k !in KeysOf(e)
  {
    if e == [] then -1
    else if e[0].0 == k then 0
    else
      var r := IndexOf(e[1..], k);
      assert KeysOf(e) == [e[0].0] + KeysOf(e[1..]);
      if r < 0 then -1 else r + 1
  }

  /** `$e[$k]` read without a warning: None when the key is absent. */
  function Lookup(e: Entries, k: Key): (r: Option<Value>)
    ensures r.Some? <==> k in KeysOf(e)
    ensures r.Some? ==> (k, r.value) in e
  {
    var i := IndexOf(e, k);
    if i < 0 then None else Some(e[i].1)
  }

  /** PHP `isset($e[$k])`: the key is present and its value is not null. */
  predicate IsSet(e: Entries, k: Key)
  {
    Lookup(e, k).Some? && Lookup(e, k).value != Null
  }

  /** PHP `$e[$k] = $v`: an existing key keeps its place and gets the new
      value; a new key is appended. */
  function Put(e: Entries, k: Key, v: Value): (r: Entries)
    ensures Lookup(r, k) == Some(v)
    ensures forall k' :: k' != k ==> Lookup(r, k') == Lookup(e, k')
    ensures k in KeysOf(e) ==> KeysOf(r) == KeysOf(e)
    ensures k !in KeysOf(e) ==> KeysOf(r) == KeysOf(e) + [k] && r == e + [(k, v)]
    ensures DistinctKeys(e) ==> DistinctKeys(r)
    ensures forall p :: p in r ==> p in e || p == (k, v)
  {
    var i := IndexOf(e, k);
    if i < 0 then
      AppendLookup(e, k, v);
      e + [(k, v)]
    else
      UpdateLookup(e, i, k, v);
      e[i := (k, v)]
  }

  /** The first position holding `k` is the one IndexOf finds. */
  lemma IndexOfFirst(e: Entries, k: Key, i: int)
    requires 0 <= i < |e| && e[i].0 == k
    requires forall j :: 0 <= j < i ==> e[j].0 != k
    ensures IndexOf(e, k) == i
  {
    assert KeysOf(e)[i] == k;
  }

  lemma AppendLookup(e: Entries, k: Key, v: Value)
    requires k !in KeysOf(e)
    ensures KeysOf(e + [(k, v)]) == KeysOf(e) + [k]
    ensures IndexOf(e + [(k, v)], k) == |e|
    ensures forall k' :: k' != k ==> IndexOf(e + [(k, v)], k') == IndexOf(e, k')
    ensures DistinctKeys(e) ==> DistinctKeys(e + [(k, v)])
  {
    var r := e + [(k, v)];
    assert KeysOf(r) == KeysOf(e) + [k];
    forall j | 0 <= j < |e| ensures e[j].0 != k { assert KeysOf(e)[j] == e[j].0; }
    IndexOfFirst(r, k, |e|);
    forall k' | k' != k ensures IndexOf(r, k') == IndexOf(e, k') {
      var b := IndexOf(e, k');
      if b >= 0 {
        IndexOfFirst(r, k', b);
      } else {
        assert k' !in KeysOf(r);
      }
    }
  }

  lemma UpdateLookup(e: Entries, i: int, k: Key, v: Value)
    requires 0 <= i < |e| && IndexOf(e, k) == i
    ensures KeysOf(e[i := (k, v)]) == KeysOf(e)
    ensures forall k' :: IndexOf(e[i := (k, v)], k') == IndexOf(e, k')
    ensures DistinctKeys(e) ==> DistinctKeys(e[i := (k, v)])
  {
    var r := e[i := (k, v)];
    assert KeysOf(r) == KeysOf(e);
    forall k' ensures IndexOf(r, k') == IndexOf(e, k') {
      var b := IndexOf(e, k');
      if b >= 0 {
        IndexOfFirst(r, k', b);
      } else {
        assert k' !in KeysOf(r);
      }
    }
  }

  /** `strtolower` on one character (PHP 8.2 and later, or any version under
      the C locale): ASCII letters only. */
  function LowerChar(c: char): char
  {
    if 'A' <= c <= 'Z' then (c as int + 32) as char else c
  }

  /** `strtolower` as of PHP 8.2 (earlier versions under the C locale):
      ASCII-only lower-casing. */
  function Lower(s: string): string
  {
    seq(|s|, i requires 0 <= i < |s| => LowerChar(s[i]))
  }
}
