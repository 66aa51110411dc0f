/** The header redaction filter (`Integration::processHeaders`). */
module Headers {
  import opened Values
  import opened Config

  /** A header that is dropped: its lower-cased name is in `stripHeaders`. */
  predicate Stripped(cfg: Config, name: Key)
  {
    Lower(name) in cfg.stripHeaders
  }

  /** A header whose value is replaced: its lower-cased name is in `piiHeaders`. */
  predicate Personal(cfg: Config, name: Key)
  {
    Lower(name) in cfg.piiHeaders
  }

  /** One pass of the `foreach` over the headers: `acc` is `$result` so far. */
  function Step(cfg: Config, acc: Entries, h: (Key, Value)): Entries
  {
    if Stripped(cfg, h.0) then acc
    else if Personal(cfg, h.0) then Put(acc, h.0, Placeholder(cfg))
    else Put(acc, h.0, h.1)
  }

  /** `$result` after the loop has visited every header of `headers`. */
  function Processed(cfg: Config, headers: Entries): Entries
  {
    if headers == [] then []
    else Step(cfg, Processed(cfg, headers[..|headers| - 1]), headers[|headers| - 1])
  }

  method ProcessHeaders(cfg: Config, headers: Entries) returns (result: Entries)
    ensures result == Processed(cfg, headers)
  {
    result := [];
    for i := 0 to |headers|
      invariant result == Processed(cfg, headers[..i])
    {
      var (header, value) := headers[i];
      assert headers[..i + 1][..i] == headers[..i];
      // A dropped header leaves no trace in the result
      if Stripped(cfg, header) {
        continue;
      }
      // A personal header keeps its name but not its value
      if Personal(cfg, header) {
        result := Put(result, header, Placeholder(cfg));
      } else {
        result := Put(result, header, value);
      }
    }
    assert headers[..|headers|] == headers;
  }

  /** A header array that passed the filter: nothing stripped is left and
      every personal header holds the placeholder. */
  predicate IsRedacted(cfg: Config, e: Entries)
  {
    forall i :: 0 <= i < |e| ==>
      !Stripped(cfg, e[i].0) && (Personal(cfg, e[i].0) ==> e[i].1 == Placeholder(cfg))
  }

  /** The names in `ks` that are not stripped, in their order. */
  function Unstripped(cfg: Config, ks: seq<Key>): seq<Key>
  {
    if ks == [] then []
    else Unstripped(cfg, ks[..|ks| - 1]) + (if Stripped(cfg, ks[|ks| - 1]) then [] else [ks[|ks| - 1]])
  }

  lemma SplitLast(e: Entries)
    requires e != []
    ensures e == e[..|e| - 1] + [e[|e| - 1]]
    ensures KeysOf(e) == KeysOf(e[..|e| - 1]) + [e[|e| - 1].0]
    ensures DistinctKeys(e) ==> DistinctKeys(e[..|e| - 1]) && e[|e| - 1].0 !in KeysOf(e[..|e| - 1])
  {
    var p := e[..|e| - 1];
    assert KeysOf(e) == KeysOf(p) + [e[|e| - 1].0];
    if DistinctKeys(e) {
      forall j | 0 <= j < |p| ensures p[j].0 != e[|e| - 1].0 {
        assert p[j] == e[j];
      }
    }
  }

  /** The output is redacted and, like every PHP array, free of duplicate keys. */
  lemma {:induction false} ProcessedIsRedacted(cfg: Config, headers: Entries)
    ensures IsRedacted(cfg, Processed(cfg, headers))
    ensures DistinctKeys(Processed(cfg, headers))
  {
    if headers != [] {
      var p, h := headers[..|headers| - 1], headers[|headers| - 1];
      ProcessedIsRedacted(cfg, p);
      var acc := Processed(cfg, p);
      if !Stripped(cfg, h.0) {
        var v := if Personal(cfg, h.0) then Placeholder(cfg) else h.1;
        var r := Put(acc, h.0, v);
        forall i | 0 <= i < |r|
          ensures !Stripped(cfg, r[i].0) && (Personal(cfg, r[i].0) ==> r[i].1 == Placeholder(cfg))
        {
          assert r[i] in r;
        }
      }
    }
  }

  /** A name survives exactly when it was given and is not stripped. */
  lemma {:induction false} ProcessedKeys(cfg: Config, headers: Entries)
    ensures forall k :: k in KeysOf(Processed(cfg, headers)) <==> k in KeysOf(headers) && !Stripped(cfg, k)
  {
    if headers != [] {
      SplitLast(headers);
      ProcessedKeys(cfg, headers[..|headers| - 1]);
    }
  }

  /** A surviving header that is not personal is one of the input headers,
      name spelling and value unchanged. */
  lemma {:induction false} ProcessedKeepsValues(cfg: Config, headers: Entries)
    ensures forall i :: 0 <= i < |Processed(cfg, headers)| && !Personal(cfg, Processed(cfg, headers)[i].0) ==>
      Processed(cfg, headers)[i] in headers
  {
    if headers != [] {
      var p, h := headers[..|headers| - 1], headers[|headers| - 1];
      SplitLast(headers);
      ProcessedKeepsValues(cfg, p);
      var acc, r := Processed(cfg, p), Processed(cfg, headers);
      forall i | 0 <= i < |r| && !Personal(cfg, r[i].0) ensures r[i] in headers {
        assert r[i] in r;
        if r[i] in acc {
          var j :| 0 <= j < |acc| && acc[j] == r[i];
          assert acc[j].0 == r[i].0;
        }
      }
    }
  }

  /** For a header array without duplicate names (as PHP arrays are), the
      output names are the unstripped input names in their input order. */
  lemma {:induction false} ProcessedOrder(cfg: Config, headers: Entries)
    requires DistinctKeys(headers)
    ensures KeysOf(Processed(cfg, headers)) == Unstripped(cfg, KeysOf(headers))
  {
    if headers != [] {
      var p, h := headers[..|headers| - 1], headers[|headers| - 1];
      SplitLast(headers);
      ProcessedOrder(cfg, p);
      ProcessedKeys(cfg, p);
      assert KeysOf(headers)[..|headers| - 1] == KeysOf(p);
    }
  }

  /** What the output holds under each name, for a duplicate-free input:
      nothing for a stripped or absent name, the placeholder for a personal
      one, the original value otherwise. */
  lemma {:induction false} ProcessedLookup(cfg: Config, headers: Entries, k: Key)
    requires DistinctKeys(headers)
    ensures Lookup(Processed(cfg, headers), k) ==
      if k !in KeysOf(headers) || Stripped(cfg, k) then None
      else if Personal(cfg, k) then Some(Placeholder(cfg))
      else Lookup(headers, k)
  {
    if headers != [] {
      var p, h := headers[..|headers| - 1], headers[|headers| - 1];
      SplitLast(headers);
      ProcessedLookup(cfg, p, k);
      ProcessedKeys(cfg, p);
      AppendLookup(p, h.0, h.1);
    }
  }

  /** A duplicate-free array that is already redacted passes unchanged. */
  lemma {:induction false} RedactedIsFixedPoint(cfg: Config, e: Entries)
    requires DistinctKeys(e) && IsRedacted(cfg, e)
    ensures Processed(cfg, e) == e
  {
    if e != [] {
      var p, h := e[..|e| - 1], e[|e| - 1];
      SplitLast(e);
      assert IsRedacted(cfg, p) by {
        forall i | 0 <= i < |p| ensures !Stripped(cfg, p[i].0) && (Personal(cfg, p[i].0) ==> p[i].1 == Placeholder(cfg)) {
          assert p[i] == e[i];
        }
      }
      RedactedIsFixedPoint(cfg, p);
      assert !Stripped(cfg, e[|e| - 1].0);
    }
  }

  /** Filtering twice is filtering once. */
  lemma ProcessedIdempotent(cfg: Config, headers: Entries)
    ensures Processed(cfg, Processed(cfg, headers)) == Processed(cfg, headers)
  {
    ProcessedIsRedacted(cfg, headers);
    RedactedIsFixedPoint(cfg, Processed(cfg, headers));
  }

  /** With the default rule set, no cookie header of any spelling is left and
      an authorization header of any spelling reads "[Filtered PII]". */
  lemma DefaultHidesCookiesAndCredentials(headers: Entries)
    ensures forall i :: 0 <= i < |Processed(Default, headers)| ==>
      var (name, value) := Processed(Default, headers)[i];
      Lower(name) != "cookie" && Lower(name) != "set-cookie" &&
      (Lower(name) == "authorization" ==> value == Str("[Filtered PII]"))
  {
    ProcessedIsRedacted(Default, headers);
  }
}
