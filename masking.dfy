/** Recursive masking of body fields
    (`Integration::removeKeysFromArrayRecursively`). */
module Masking {
  import opened Values
  import opened Config

  /** The array after the spec entries of `spec` were applied in order, or
      None where PHP raises a TypeError: a `'name' => [...]` entry whose field
      is missing or is not an array (the by-reference argument is then not an
      array). */
  function Masked(e: Entries, spec: seq<PathItem>, text: Value): (r: Option<Entries>)
    decreases spec
    ensures r.Some? ==> KeysOf(r.value) == KeysOf(e)
  {
    if spec == [] then Some(e)
    else
      match Masked(e, spec[..|spec| - 1], text)
      case None => None
      case Some(e1) => MaskedItem(e1, spec[|spec| - 1], text)
  }

  /** One pass of the `foreach` over the spec. */
  function MaskedItem(e: Entries, item: PathItem, text: Value): (r: Option<Entries>)
    decreases item
    ensures r.Some? ==> KeysOf(r.value) == KeysOf(e)
  {
    match item
    case Leaf(k) =>
      Some(if IsSet(e, k) then Put(e, k, text) else e)
    case Nest(k, sub) =>
      match Lookup(e, k)
      case Some(Arr(inner)) =>
        (match Masked(inner, sub, text)
         case Some(inner') => Some(Put(e, k, Arr(inner')))
         case None => None)
      case _ => None
  }

  method RemoveKeysFromArrayRecursively(arr: Entries, keysToRemove: seq<PathItem>, text: Value)
    returns (out: Entries)
    requires Masked(arr, keysToRemove, text).Some?
    ensures Masked(arr, keysToRemove, text) == Some(out)
    decreases keysToRemove
  {
    out := arr;
    for i := 0 to |keysToRemove|
      invariant Masked(arr, keysToRemove[..i], text) == Some(out)
    {
      assert keysToRemove[..i + 1][..i] == keysToRemove[..i];
      PrefixSucceeds(arr, keysToRemove, i + 1, text);
      match keysToRemove[i]
      case Nest(key, value) =>
        var inner := Lookup(out, key).value.entries;
        assert keysToRemove[i] in keysToRemove;
        var inner' := RemoveKeysFromArrayRecursively(inner, value, text);
        out := Put(out, key, Arr(inner'));
      case Leaf(value) =>
        if IsSet(out, value) {
          out := Put(out, value, text);
        }
    }
    assert keysToRemove[..|keysToRemove|] == keysToRemove;
  }

  /** If the whole spec runs without error, so does every prefix. */
  lemma {:induction false} PrefixSucceeds(e: Entries, spec: seq<PathItem>, n: nat, text: Value)
    requires n <= |spec| && Masked(e, spec, text).Some?
    ensures Masked(e, spec[..n], text).Some?
    decreases |spec|
  {
    if n < |spec| {
      assert spec[..|spec| - 1][..n] == spec[..n];
      PrefixSucceeds(e, spec[..|spec| - 1], n, text);
    } else {
      assert spec[..n] == spec;
    }
  }

  /** Running `a` then `b` is running `a + b`. */
  lemma {:induction false} MaskedAppend(e: Entries, a: seq<PathItem>, b: seq<PathItem>, text: Value)
    ensures Masked(e, a + b, text) ==
      match Masked(e, a, text) case None => None case Some(e1) => Masked(e1, b, text)
    decreases |b|
  {
    if b == [] {
      assert a + b == a;
    } else {
      assert (a + b)[..|a + b| - 1] == a + b[..|b| - 1];
      MaskedAppend(e, a, b[..|b| - 1], text);
    }
  }

  /** Whether some entry of `spec` names the field `k` at this level. */
  predicate Names(spec: seq<PathItem>, k: Key)
  {
    exists i :: 0 <= i < |spec| && spec[i].name == k
  }

  /** What one spec entry does to the field `k`. */
  lemma ItemEffect(e: Entries, item: PathItem, text: Value, k: Key)
    requires MaskedItem(e, item, text).Some?
    ensures item.name != k ==> Lookup(MaskedItem(e, item, text).value, k) == Lookup(e, k)
    ensures item == Leaf(k) ==>
      Lookup(MaskedItem(e, item, text).value, k) == (if IsSet(e, k) then Some(text) else Lookup(e, k))
    ensures item.Nest? && item.name == k ==>
      Lookup(e, k).Some? && Lookup(e, k).value.Arr? &&
      Lookup(MaskedItem(e, item, text).value, k).Some? &&
      Lookup(MaskedItem(e, item, text).value, k).value.Arr?
  {
  }

  /** A field that is absent or null is never created nor changed. */
  lemma {:induction false} UnsetUntouched(e: Entries, spec: seq<PathItem>, text: Value, k: Key)
    requires Masked(e, spec, text).Some? && !IsSet(e, k)
    ensures Lookup(Masked(e, spec, text).value, k) == Lookup(e, k)
    decreases |spec|
  {
    if spec != [] {
      var p := spec[..|spec| - 1];
      UnsetUntouched(e, p, text, k);
      ItemEffect(Masked(e, p, text).value, spec[|spec| - 1], text, k);
    }
  }

  /** A field no entry names is left as it was. */
  lemma {:induction false} UnnamedUntouched(e: Entries, spec: seq<PathItem>, text: Value, k: Key)
    requires Masked(e, spec, text).Some? && !Names(spec, k)
    ensures Lookup(Masked(e, spec, text).value, k) == Lookup(e, k)
    decreases |spec|
  {
    if spec != [] {
      var p := spec[..|spec| - 1];
      assert forall i :: 0 <= i < |p| ==> p[i] == spec[i];
      UnnamedUntouched(e, p, text, k);
      ItemEffect(Masked(e, p, text).value, spec[|spec| - 1], text, k);
    }
  }

  /** A set field named by a leaf entry ends up holding the placeholder
      (a null placeholder leaves it null, which a later leaf then skips). */
  lemma {:induction false} LeafMasked(e: Entries, spec: seq<PathItem>, text: Value, k: Key)
    requires Masked(e, spec, text).Some? && IsSet(e, k) && !text.Arr?
    ensures Leaf(k) in spec ==> Lookup(Masked(e, spec, text).value, k) == Some(text)
    ensures Leaf(k) !in spec ==> IsSet(Masked(e, spec, text).value, k)
    decreases |spec|
  {
    if spec != [] {
      var p, last := spec[..|spec| - 1], spec[|spec| - 1];
      assert spec == p + [last];
      assert Leaf(k) in spec <==> Leaf(k) in p || last == Leaf(k);
      LeafMasked(e, p, text, k);
      ItemEffect(Masked(e, p, text).value, last, text, k);
    }
  }

  /** A field named by exactly one nested entry is the sub-array masked by
      that entry's sub-spec. */
  lemma {:induction false} NestMasked(e: Entries, spec: seq<PathItem>, text: Value, i: nat)
    requires i < |spec| && spec[i].Nest?
    requires forall j :: 0 <= j < |spec| && j != i ==> spec[j].name != spec[i].name
    requires Masked(e, spec, text).Some?
    ensures Lookup(e, spec[i].name).Some? && Lookup(e, spec[i].name).value.Arr?
    ensures Lookup(Masked(e, spec, text).value, spec[i].name).Some?
    ensures Lookup(Masked(e, spec, text).value, spec[i].name).value.Arr?
    ensures Masked(Lookup(e, spec[i].name).value.entries, spec[i].sub, text)
         == Some(Lookup(Masked(e, spec, text).value, spec[i].name).value.entries)
  {
    var k := spec[i].name;
    var before, after := spec[..i], spec[i + 1..];
    assert spec == before + [spec[i]] + after;
    MaskedAppend(e, before + [spec[i]], after, text);
    MaskedAppend(e, before, [spec[i]], text);
    assert [spec[i]][..0] == [];
    assert !Names(before, k) by {
      forall j | 0 <= j < |before| ensures before[j].name != k { assert before[j] == spec[j]; }
    }
    assert !Names(after, k) by {
      forall j | 0 <= j < |after| ensures after[j].name != k { assert after[j] == spec[i + 1 + j]; }
    }
    var e1 := Masked(e, before, text).value;
    UnnamedUntouched(e, before, text, k);
    var e2 := Masked(e1, [spec[i]], text).value;
    UnnamedUntouched(e2, after, text, k);
  }

  /** The value at path `p` (`$e[p[0]][p[1]]...`), if every step exists. */
  function At(e: Entries, p: seq<Key>): Option<Value>
    requires p != []
    decreases |p|
  {
    match Lookup(e, p[0])
    case None => None
    case Some(v) =>
      if |p| == 1 then Some(v)
      else match v
        case Arr(inner) => At(inner, p[1..])
        case _ => None
  }

  /** Whether the spec can reach the field at path `p`: some entry names
      `p[0]` and is a leaf, or is nested and the rest of the path is reached
      by its sub-spec (or ends there). */
  predicate Touches(spec: seq<PathItem>, p: seq<Key>)
    requires p != []
    decreases |p|
  {
    exists i :: 0 <= i < |spec| && spec[i].name == p[0] &&
      (spec[i].Leaf? || |p| == 1 || Touches(spec[i].sub, p[1..]))
  }

  /** Nothing else changes, at any depth: a field the spec does not reach
      keeps its value. */
  lemma {:induction false} UntouchedAtAnyDepth(e: Entries, spec: seq<PathItem>, text: Value, p: seq<Key>)
    requires p != [] && Masked(e, spec, text).Some? && !Touches(spec, p)
    ensures At(Masked(e, spec, text).value, p) == At(e, p)
    decreases spec, 1
  {
    if spec != [] {
      var pre := spec[..|spec| - 1];
      assert forall i :: 0 <= i < |pre| ==> pre[i] == spec[i];
      assert !Touches(pre, p);
      UntouchedAtAnyDepth(e, pre, text, p);
      UntouchedLastStep(Masked(e, pre, text).value, spec, text, p);
    }
  }

  /** The last entry of `spec` does not change a path that `spec` does not reach. */
  lemma {:induction false} UntouchedLastStep(e1: Entries, spec: seq<PathItem>, text: Value, p: seq<Key>)
    requires p != [] && spec != [] && !Touches(spec, p)
    requires MaskedItem(e1, spec[|spec| - 1], text).Some?
    ensures At(MaskedItem(e1, spec[|spec| - 1], text).value, p) == At(e1, p)
    decreases spec, 0
  {
    var last := spec[|spec| - 1];
    ItemEffect(e1, last, text, p[0]);
    if last.name == p[0] {
      assert last.Nest? && |p| > 1 && !Touches(last.sub, p[1..]);
      var inner := Lookup(e1, p[0]).value.entries;
      UntouchedAtAnyDepth(inner, last.sub, text, p[1..]);
    }
  }

  /** A worked example: masking `card.number` leaves `cvv` alone. */
  lemma CardNumberExample()
    ensures
      var body := [("card", Arr([("number", Str("4111")), ("cvv", Str("123"))]))];
      var spec := [Nest("card", [Leaf("number")])];
      Masked(body, spec, Str("[Filtered PII]")) ==
        Some([("card", Arr([("number", Str("[Filtered PII]")), ("cvv", Str("123"))]))])
  {
    var text := Str("[Filtered PII]");
    var inner := [("number", Str("4111")), ("cvv", Str("123"))];
    IndexOfFirst(inner, "number", 0);
    var inner' := [("number", text), ("cvv", Str("123"))];
    assert Put(inner, "number", text) == inner';
    assert [Leaf("number")][..0] == [];
    assert Masked(inner, [Leaf("number")], text) == Some(inner');
    var body := [("card", Arr(inner))];
    IndexOfFirst(body, "card", 0);
    assert Put(body, "card", Arr(inner')) == [("card", Arr(inner'))];
    var spec := [Nest("card", [Leaf("number")])];
    assert spec[..0] == [];
  }

  /** A flat `'card' => 'number'` entry is a top-level leaf: its string value
      names a field of this array, so the nested card number stays as it is. */
  lemma FlatLeafStaysAtTop()
    ensures
      var body := [("card", Arr([("number", Str("4111")), ("cvv", Str("123"))]))];
      Masked(body, [Leaf("number")], Str("[Filtered PII]")) == Some(body)
  {
    var body := [("card", Arr([("number", Str("4111")), ("cvv", Str("123"))]))];
    assert KeysOf(body) == ["card"];
    assert [Leaf("number")][..0] == [];
  }
}
