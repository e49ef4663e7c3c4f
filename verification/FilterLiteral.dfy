/** The node-pool filter: a pool name between double quotes, escaped for the filter language. */
module FilterLiteral {
  import opened Wrappers

  /** Each backslash and each double quote gets a backslash before it. */
  function Escape(name: string): string {
    if name == "" then ""
    else EscapeChar(name[0]) + Escape(name[1..])
  }

  function EscapeChar(c: char): string {
    if c == '\\' || c == '\"' then ['\\', c] else [c]
  }

  /** The filter expression of a query. */
  function Filter(pool: string): string {
    "NodePool == \"" + Escape(pool) + "\""
  }

  /**
   Reads a quoted literal from just after its opening quote: the decoded value and what
   follows the closing quote. A backslash takes the next character as it is; None if
   the literal does not end.
   */
  function Scan(text: string): Option<(string, string)> {
    if text == "" then None
    else if text[0] == '\"' then Some(("", text[1..]))
    else if text[0] == '\\' then
      if |text| == 1 then None else Prepend(text[1], Scan(text[2..]))
    else Prepend(text[0], Scan(text[1..]))
  }

  function Prepend(c: char, r: Option<(string, string)>): Option<(string, string)> {
    if r.None? then None else Some(([c] + r.value.0, r.value.1))
  }

  lemma ScanEscapedChar(c: char, tail: string)
    ensures Scan(EscapeChar(c) + tail) == Prepend(c, Scan(tail))
  {
    var text := EscapeChar(c) + tail;
    if c == '\\' || c == '\"' {
      assert text[2..] == tail;
    } else {
      assert text[1..] == tail;
    }
  }

  /** Scanning an escaped name stops at the first quote after it and gives the name back, whatever follows. */
  lemma {:induction false} ScanEscape(name: string, rest: string)
    ensures Scan(Escape(name) + "\"" + rest) == Some((name, rest))
  {
    if name == "" {
      assert (Escape(name) + "\"" + rest)[1..] == rest;
    } else {
      ScanEscape(name[1..], rest);
      var tail := Escape(name[1..]) + "\"" + rest;
      ScanEscapedChar(name[0], tail);
      assert Escape(name) + "\"" + rest == EscapeChar(name[0]) + tail;
      assert [name[0]] + name[1..] == name;
    }
  }

  const PREFIX: string := "NodePool == \""

  /** The literal in a filter is the pool name, and its closing quote is the last character of the filter. */
  lemma FilterNamesThePool(pool: string)
    ensures Filter(pool)[..|PREFIX|] == "NodePool == \""
    ensures Scan(Filter(pool)[|PREFIX|..]) == Some((pool, ""))
  {
    ScanEscape(pool, "");
    assert Filter(pool)[|PREFIX|..] == Escape(pool) + "\"" + "";
  }

  /** Different pools give different filters. */
  lemma FilterInjective(a: string, b: string)
    requires Filter(a) == Filter(b)
    ensures a == b
  {
    FilterNamesThePool(a);
    FilterNamesThePool(b);
  }

  /** Without escaping, exactly the names free of quotes and backslashes would be read back. */
  lemma {:induction false} RawNamesMisread(name: string)
    ensures Scan(name + "\"") == Some((name, "")) <==> '\"' !in name && '\\' !in name
    decreases |name|
  {
    if name != "" {
      var text := name + "\"";
      assert name == [name[0]] + name[1..] && name[0] in name;
      assert text[1..] == name[1..] + "\"";
      if name[0] == '\"' {
        assert Scan(text).value.1 == text[1..] != "";
        assert Scan(text) != Some((name, ""));
      } else if name[0] == '\\' {
        var r := Scan(text[2..]);
        ScanShrinks(text[2..]);
        assert Scan(text) == Prepend(text[1], r);
        assert r.Some? ==> |Scan(text).value.0| < |name|;
        assert Scan(text) != Some((name, ""));
      } else {
        RawNamesMisread(name[1..]);
        var r := Scan(name[1..] + "\"");
        assert Scan(text) == Prepend(name[0], r);
        assert r.Some? ==> ([name[0]] + r.value.0)[1..] == r.value.0;
        assert r == Some((name[1..], "")) ==> Scan(text) == Some((name, ""));
        assert Scan(text) == Some((name, "")) ==> r == Some((name[1..], ""));
        assert forall c :: c in name <==> c == name[0] || c in name[1..];
      }
    }
  }

  /** A scanned value is shorter than the text it was read from. */
  lemma {:induction false} ScanShrinks(text: string)
    ensures Scan(text).Some? ==> |Scan(text).value.0| + |Scan(text).value.1| < |text|
    decreases |text|
  {
    if text != "" && text[0] != '\"' {
      if text[0] == '\\' {
        if |text| > 1 { ScanShrinks(text[2..]); }
      } else {
        ScanShrinks(text[1..]);
      }
    }
  }

  // ---------------------------------------------------------------- the count

  datatype Node = Node(pool: string, status: string, eligibility: string)

  const NODE_STATUS_READY := "ready"
  const NODE_SCHEDULING_ELIGIBLE := "eligible"

  predicate Counts(n: Node) {
    n.status == NODE_STATUS_READY && n.eligibility == NODE_SCHEDULING_ELIGIBLE
  }

  /** The ready and eligible nodes among those a listing returned; an empty pool name is refused, and so is a failed listing. */
  method Query(pool: string, listing: Result<seq<Node>, ()>) returns (r: Result<nat, ()>)
    ensures r.Ok? <==> pool != "" && listing.Ok?
    ensures r.Ok? ==> r.value == |set i | 0 <= i < |listing.value| && listing.value[i].status == "ready" && listing.value[i].eligibility == "eligible"|
  {
    if pool == "" { return Err(()); }
    if listing.Err? { return Err(()); }
    var nodes := listing.value;
    var readyCount := 0;
    ghost var counted: set<int> := {};
    for i := 0 to |nodes|
      invariant counted == set k | 0 <= k < i && nodes[k].status == "ready" && nodes[k].eligibility == "eligible"
      invariant readyCount == |counted|
    {
      if Counts(nodes[i]) {
        readyCount := readyCount + 1;
        counted := counted + {i};
      }
    }
    return Ok(readyCount);
  }
}
