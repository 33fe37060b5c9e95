/** What an accepted `evidence.exclude` edit keeps: every line outside the requested lists, in order. */
module ConfigRest {
  import opened Text
  import opened ConfigText
  import opened ConfigEdit

  function Cut<T>(s: seq<T>, at: nat, end: nat): seq<T>
    requires at <= end <= |s|
  {
    s[..at] + s[end..]
  }

  /** The document without one of the lists. */
  function Without(lines: Lines, key: string): Lines {
    match Find(lines, key, "    ")
    case None => lines
    case Some(b) => Cut(lines, b.at, b.end)
  }

  lemma NothingInserted<T>(s: seq<T>)
    ensures s[..0] + [] + s[0..] == s
  {
  }

  lemma InsertedAtEnd<T>(s: seq<T>, r: seq<T>)
    ensures s[..|s|] + r + s[|s|..] == s + r
  {
  }

  ghost predicate IsHeader(added: Lines) {
    added == [] || added == ["  exclude:"]
    || added == ["evidence:", "  exclude:"] || added == ["", "evidence:", "  exclude:"]
  }

  lemma EvidenceInserted(lines: Lines) returns (added: Lines)
    requires Find(lines, "evidence", "") == None
    ensures WithEvidence(lines) == Splice(lines, |lines|, |lines|, added) && IsHeader(added)
  {
    var last := if lines == [] then "" else lines[|lines| - 1];
    var separator := if last != "" && IsSpace(last[0]) then [""] else [];
    added := separator + ["evidence:", "  exclude:"];
    InsertedAtEnd(lines, added);
    assert lines + added == lines + separator + ["evidence:", "  exclude:"];
  }

  lemma ExcludeInserted(lines: Lines) returns (n: nat, added: Lines)
    requires WithExclude(lines).Ok?
    ensures n <= |lines| && WithExclude(lines).value == Splice(lines, n, n, added)
    ensures IsHeader(added) && (added == [] || Closed(lines[n..], 0))
    ensures Find(lines, "exclude", "  ").Some? ==> WithExclude(lines).value == lines
  {
    if Find(lines, "exclude", "  ").Some? {
      n, added := 0, [];
      NothingInserted(lines);
    } else {
      n, added := Find(lines, "evidence", "").value.end, ["  exclude:"];
      FoundIsBlock(lines, "evidence", "", Find(lines, "evidence", "").value);
    }
  }

  /** Only the header lines that are missing are added, at one place, between two top-level keys. */
  lemma HeadersOnlyInserted(lines: Lines) returns (n: nat, added: Lines)
    requires WithHeaders(lines).Ok?
    ensures n <= |lines| && WithHeaders(lines).value == Splice(lines, n, n, added)
    ensures IsHeader(added) && (added == [] || Closed(lines[n..], 0))
  {
    if Find(lines, "evidence", "").None? {
      EvidenceAdded(lines);
      n := |lines|;
      added := EvidenceInserted(lines);
      var _, _ := ExcludeInserted(WithEvidence(lines));
    } else {
      n, added := ExcludeInserted(lines);
    }
  }

  lemma CutPlaced<T>(s: seq<T>, from: nat, to: nat, r: seq<T>)
    requires from <= to <= |s|
    ensures Cut(s[..from] + r + s[to..], from, from + |r|) == Cut(s, from, to)
    ensures from == to ==> Cut(s, from, to) == s
  {
  }

  /** Setting a list changes nothing outside it. */
  lemma SetKeepsTheRest(lines: Lines, key: string, values: seq<string>)
    requires ListKey(key) && SetOne(lines, key, Some(values)).Ok?
    ensures Without(SetOne(lines, key, Some(values)).value, key) == Without(lines, key)
  {
    var after := SetOne(lines, key, Some(values)).value;
    var from, to, r := ListStep(lines, key, values, after);
    StepKeepsTheRest(lines, key, values, from, to, r, after);
  }

  lemma StepKeepsTheRest(lines: Lines, key: string, values: seq<string>, from: nat, to: nat, r: Lines, after: Lines)
    requires ListKey(key) && Step(lines, key, values, from, to, r, after)
    ensures Without(after, key) == Without(lines, key)
  {
    Placed(lines, from, to, r, key, values);
    CutPlaced(lines, from, to, r);
  }

  lemma CutIsSplice(lines: Lines, at: nat, end: nat)
    requires at <= end <= |lines|
    ensures Cut(lines, at, end) == Splice(lines, at, end, [])
  {
    assert lines[..at] + [] == lines[..at];
  }

  /** Taking one list out moves a later list and leaves an earlier one. */
  lemma CutKeepsOther(lines: Lines, key: string, b: KeyBlock, key': string, b': KeyBlock)
    requires ListKey(key) && ListKey(key') && key != key'
    requires IsBlock(lines, key, "    ", b) && IsBlock(lines, key', "    ", b')
    ensures b.end <= b'.at || b'.end <= b.at
    ensures Find(Cut(lines, b.at, b.end), key', "    ")
         == Some(if b.end <= b'.at then Moved(b', b.at, b.end, 0) else b')
  {
    Disjoint(lines, key, b.at, b.end, key', b'.at, b'.end);
    CutIsSplice(lines, b.at, b.end);
    if b.end <= b'.at {
      BlockAfter(lines, key', "    ", b', b.at, b.end, []);
      BlockIsFound(Cut(lines, b.at, b.end), key', "    ", Moved(b', b.at, b.end, 0));
    } else {
      assert [] + lines[b.end..] == lines[b.end..];
      BlockBefore(lines, key', "    ", b', b.at, b.end, []);
      BlockIsFound(Cut(lines, b.at, b.end), key', "    ", b');
    }
  }

  lemma CutTwice<T>(s: seq<T>, at: nat, end: nat, at': nat, end': nat)
    requires at <= end <= at' <= end' <= |s|
    ensures Cut(Cut(s, at, end), at' - end + at, end' - end + at) == Cut(Cut(s, at', end'), at, end)
  {
  }

  lemma CutAbsent(lines: Lines, key: string, at: nat, end: nat)
    requires Find(lines, key, "    ") == None && at <= end <= |lines|
    ensures Find(Cut(lines, at, end), key, "    ") == None
  {
    NoEarlierOwner(lines, key, "    ", |lines|);
    var after := Cut(lines, at, end);
    forall k | 0 <= k < |after|
      ensures !Owns(after[k], key, "    ")
    {
      assert after[k] == lines[..|lines|][if k < at then k else k - at + end];
    }
  }

  /** The order in which the lists are taken out does not matter. */
  lemma WithoutCommutes(lines: Lines, key: string, key': string)
    requires ListKey(key) && ListKey(key') && key != key'
    ensures Without(Without(lines, key), key') == Without(Without(lines, key'), key)
  {
    match (Find(lines, key, "    "), Find(lines, key', "    "))
    case (None, None) =>
    case (Some(b), None) => CutAbsent(lines, key', b.at, b.end);
    case (None, Some(b')) => CutAbsent(lines, key, b'.at, b'.end);
    case (Some(b), Some(b')) =>
      FoundIsBlock(lines, key, "    ", b);
      FoundIsBlock(lines, key', "    ", b');
      BlocksCommute(lines, key, b, key', b');
  }

  lemma BlocksCommute(lines: Lines, key: string, b: KeyBlock, key': string, b': KeyBlock)
    requires ListKey(key) && ListKey(key') && key != key'
    requires IsBlock(lines, key, "    ", b) && IsBlock(lines, key', "    ", b')
    ensures Without(Cut(lines, b.at, b.end), key') == Without(Cut(lines, b'.at, b'.end), key)
  {
    CutKeepsOther(lines, key, b, key', b');
    CutKeepsOther(lines, key', b', key, b);
    if b.end <= b'.at {
      InOrder(lines, key, b, key', b');
    } else {
      InOrder(lines, key', b', key, b);
    }
  }

  lemma InOrder(lines: Lines, key: string, b: KeyBlock, key': string, b': KeyBlock)
    requires b.at <= b.end <= b'.at <= b'.end <= |lines|
    requires Find(Cut(lines, b.at, b.end), key', "    ") == Some(Moved(b', b.at, b.end, 0))
    requires Find(Cut(lines, b'.at, b'.end), key, "    ") == Some(b)
    ensures Without(Cut(lines, b.at, b.end), key') == Without(Cut(lines, b'.at, b'.end), key)
  {
    SameCut(lines, Cut(lines, b.at, b.end), Cut(lines, b'.at, b'.end), key, b, key', b', Moved(b', b.at, b.end, 0));
  }

  lemma SameCut(lines: Lines, one: Lines, other: Lines, key: string, b: KeyBlock, key': string, b': KeyBlock,
                m: KeyBlock)
    requires b.at <= b.end <= b'.at <= b'.end <= |lines|
    requires one == Cut(lines, b.at, b.end) && other == Cut(lines, b'.at, b'.end)
    requires m.at == b'.at - b.end + b.at && m.end == b'.end - b.end + b.at
    requires Find(one, key', "    ") == Some(m) && Find(other, key, "    ") == Some(b)
    ensures Without(one, key') == Without(other, key)
  {
    CutTwice(lines, b.at, b.end, b'.at, b'.end);
    WithoutIs(one, key', m);
    WithoutIs(other, key, b);
  }

  lemma WithoutIs(lines: Lines, key: string, b: KeyBlock)
    requires Find(lines, key, "    ") == Some(b) && b.at <= b.end <= |lines|
    ensures Without(lines, key) == Cut(lines, b.at, b.end)
  {
  }

  /** The document without the requested lists. */
  function Rest(lines: Lines, lists: Lists): Lines {
    var l1 := if lists.docs.Some? then Without(lines, "docs") else lines;
    if lists.cache.Some? then Without(l1, "cache") else l1
  }

  lemma RestOfHeaders(lines: Lines, lists: Lists)
    requires Edit(lines, lists).Ok?
    ensures Rest(Edit(lines, lists).value, lists) == Rest(WithHeaders(lines).value, lists)
  {
    var l1 := WithHeaders(lines).value;
    var l2 := SetOne(l1, "docs", lists.docs).value;
    if lists.docs.Some? {
      SetKeepsTheRest(l1, "docs", lists.docs.value);
    }
    if lists.cache.Some? {
      SetKeepsTheRest(l2, "cache", lists.cache.value);
      WithoutCommutes(SetOne(l2, "cache", lists.cache).value, "docs", "cache");
      WithoutCommutes(l2, "docs", "cache");
    }
  }

  /** `headed` is the document with the missing headers added between two top-level keys. */
  ghost predicate Headed(lines: Lines, n: nat, added: Lines, headed: Lines) {
    && n <= |lines|
    && IsHeader(added)
    && headed == Splice(lines, n, n, added)
    && (added == [] || Closed(lines[n..], 0))
  }

  lemma HeaderClosed(added: Lines, rest: Lines)
    requires IsHeader(added) && (added == [] || Closed(rest, 0))
    ensures added != [] ==> Closed(added + rest, 4)
  {
    assert Trim("") == "";
    TrimIndent("", "evidence:");
    TrimIndent("  ", "exclude:");
    assert "" + "evidence:" == "evidence:" && "  " + "exclude:" == "  exclude:";
  }

  lemma HeaderOwnsNoList(added: Lines, key: string)
    requires IsHeader(added) && ListKey(key)
    ensures NoOwner(added, key, "    ")
  {
    assert ("    " + key + ":")[2] == ' ' && "  exclude:"[2] == 'e' && "evidence:"[2] == 'i';
  }

  /** A line of the block already ends the blank lines: what comes behind it does not matter. */
  lemma {:induction false} ClosedBefore(x: Lines, y: Lines, z: Lines, depth: nat)
    requires Closed(x + y, depth) && y != [] && !Blank(y[0]) && Inside(y[0], depth)
    ensures Closed(x + z, depth)
  {
    if x != [] {
      assert (x + y)[1..] == x[1..] + y && (x + z)[1..] == x[1..] + z;
      if Inside(x[0], depth) {
        ClosedBefore(x[1..], y, z, depth);
      }
    }
  }

  lemma NothingAcross(lines: Lines, n: nat, end: nat)
    requires n < end <= |lines| && Closed(lines[n..], 4)
    requires forall k | n <= k < end :: Inside(lines[k], 4)
    ensures Blank(lines[end - 1])
  {
    forall k | 0 <= k < end - n
      ensures Inside(lines[n..][k], 4)
    {
      assert lines[n..][k] == lines[n + k];
    }
    ClosedBlanks(lines[n..], 4, end - n);
    assert lines[n..][end - 1 - n] == lines[end - 1];
  }

  /** No list goes on across a place where lines are added that ends everything as deep as a list. */
  lemma HeadersOutside(lines: Lines, n: nat, depth: nat, key: string, b: KeyBlock)
    requires ListKey(key) && Find(lines, key, "    ") == Some(b)
    requires n <= |lines| && depth <= 4 && Closed(lines[n..], depth)
    ensures b.at < b.end <= |lines| && (b.end <= n || n <= b.at)
  {
    FoundIsBlock(lines, key, "    ", b);
    if b.at < n < b.end {
      BlockLines(lines, key, b.at, b.end);
      var block := lines[b.at..b.end];
      assert block[|block| - 1] == lines[b.end - 1] && !Blank(lines[b.end - 1]);
      ClosedDeeper(lines[n..], depth, 4);
      NothingAcross(lines, n, b.end);
    }
  }

  lemma HeadersAddNoList(lines: Lines, n: nat, added: Lines, key: string)
    requires Find(lines, key, "    ") == None && n <= |lines| && NoOwner(added, key, "    ")
    ensures Find(Splice(lines, n, n, added), key, "    ") == None
  {
    NoEarlierOwner(lines, key, "    ", |lines|);
    var after := Splice(lines, n, n, added);
    forall k | 0 <= k < |after|
      ensures !Owns(after[k], key, "    ")
    {
      if k < n {
        assert after[k] == lines[..|lines|][k];
      } else if k < n + |added| {
        assert after[k] == added[k - n];
      } else {
        assert after[k] == lines[..|lines|][k - |added|];
      }
    }
  }

  lemma FoundBehind(lines: Lines, n: nat, added: Lines, key: string, b: KeyBlock)
    requires ListKey(key) && Find(lines, key, "    ") == Some(b)
    requires b.end <= n <= |lines| && IsHeader(added) && added != [] && Closed(lines[n..], 0)
    ensures Find(Splice(lines, n, n, added), key, "    ") == Some(b)
  {
    FoundIsBlock(lines, key, "    ", b);
    HeaderClosed(added, lines[n..]);
    BlockBefore(lines, key, "    ", b, n, n, added);
    BlockIsFound(Splice(lines, n, n, added), key, "    ", b);
  }

  lemma FoundAhead(lines: Lines, n: nat, added: Lines, key: string, b: KeyBlock)
    requires ListKey(key) && Find(lines, key, "    ") == Some(b) && n <= b.at < b.end <= |lines| && IsHeader(added)
    ensures Find(Splice(lines, n, n, added), key, "    ") == Some(Moved(b, n, n, |added|))
  {
    FoundIsBlock(lines, key, "    ", b);
    HeaderOwnsNoList(added, key);
    BlockAfter(lines, key, "    ", b, n, n, added);
    BlockIsFound(Splice(lines, n, n, added), key, "    ", Moved(b, n, n, |added|));
  }

  lemma ClosedAhead(lines: Lines, n: nat, key: string, b: KeyBlock)
    requires ListKey(key) && Find(lines, key, "    ") == Some(b)
    requires n <= b.at < b.end <= |lines| && Closed(lines[n..], 0)
    ensures Closed(Cut(lines, b.at, b.end)[n..], 0)
  {
    FoundIsBlock(lines, key, "    ", b);
    assert lines[n..] == lines[n..b.at] + lines[b.at..];
    BlockLines(lines, key, b.at, b.end);
    OwnerShape(lines[b.at], key, "    ");
    ClosedBefore(lines[n..b.at], lines[b.at..], lines[b.end..], 0);
    assert Cut(lines, b.at, b.end)[n..] == lines[n..b.at] + lines[b.end..];
  }

  lemma CutBefore(lines: Lines, n: nat, added: Lines, at: nat, end: nat)
    requires at <= end <= n <= |lines|
    ensures Cut(Splice(lines, n, n, added), at, end)
         == Splice(Cut(lines, at, end), n - (end - at), n - (end - at), added)
  {
    var after, cut, m := Splice(lines, n, n, added), Cut(lines, at, end), n - (end - at);
    CutBeforeTail(lines, n, at, end);
    assert after[..at] == lines[..at] && after[end..] == lines[end..n] + added + lines[n..];
    assert cut[..m] == lines[..at] + lines[end..n];
  }

  lemma CutBeforeTail(lines: Lines, n: nat, at: nat, end: nat)
    requires at <= end <= n <= |lines|
    ensures Cut(lines, at, end)[n - (end - at)..] == lines[n..]
  {
  }

  lemma CutBehind(lines: Lines, n: nat, added: Lines, at: nat, end: nat)
    requires n <= at <= end <= |lines|
    ensures Cut(Splice(lines, n, n, added), at + |added|, end + |added|) == Splice(Cut(lines, at, end), n, n, added)
  {
  }

  lemma HeadersBehind(lines: Lines, n: nat, added: Lines, after: Lines, key: string, b: KeyBlock)
    requires b.at < b.end <= n <= |lines| && after == Splice(lines, n, n, added)
    requires Find(after, key, "    ") == Some(b)
    ensures var n' := n - (b.end - b.at); Without(after, key) == Splice(Cut(lines, b.at, b.end), n', n', added)
  {
    assert Without(after, key) == Cut(after, b.at, b.end);
    CutBefore(lines, n, added, b.at, b.end);
  }

  lemma HeadersAhead(lines: Lines, n: nat, added: Lines, after: Lines, key: string, b: KeyBlock)
    requires n <= b.at < b.end <= |lines| && after == Splice(lines, n, n, added)
    requires Find(after, key, "    ") == Some(Moved(b, n, n, |added|))
    ensures Without(after, key) == Splice(Cut(lines, b.at, b.end), n, n, added)
  {
    assert Without(after, key) == Cut(after, b.at + |added|, b.end + |added|);
    CutBehind(lines, n, added, b.at, b.end);
  }

  lemma AroundBehind(lines: Lines, n: nat, added: Lines, headed: Lines, key: string, b: KeyBlock)
    requires ListKey(key) && Find(lines, key, "    ") == Some(b) && b.at < b.end <= n
    requires Headed(lines, n, added, headed) && added != []
    ensures Headed(Cut(lines, b.at, b.end), n - (b.end - b.at), added, Without(headed, key))
  {
    FoundBehind(lines, n, added, key, b);
    HeadersBehind(lines, n, added, headed, key, b);
    CutBeforeTail(lines, n, b.at, b.end);
  }

  lemma AroundAhead(lines: Lines, n: nat, added: Lines, headed: Lines, key: string, b: KeyBlock)
    requires ListKey(key) && Find(lines, key, "    ") == Some(b) && n <= b.at < b.end <= |lines|
    requires Headed(lines, n, added, headed) && added != []
    ensures Headed(Cut(lines, b.at, b.end), n, added, Without(headed, key))
  {
    FoundAhead(lines, n, added, key, b);
    HeadersAhead(lines, n, added, headed, key, b);
    ClosedAhead(lines, n, key, b);
  }

  lemma WithoutNoHeaders(lines: Lines, n: nat, headed: Lines, key: string)
    requires Headed(lines, n, [], headed)
    ensures Headed(Without(lines, key), 0, [], Without(headed, key))
  {
    InsertedNothing(lines, n);
    NothingInserted(Without(lines, key));
  }

  lemma AroundNothing(lines: Lines, n: nat, added: Lines, headed: Lines, key: string)
    requires ListKey(key) && Find(lines, key, "    ") == None && Headed(lines, n, added, headed)
    ensures Headed(lines, n, added, Without(headed, key))
  {
    HeaderOwnsNoList(added, key);
    HeadersAddNoList(lines, n, added, key);
  }

  /** Taking a list out of the document with its headers is adding the headers to the document without the list. */
  lemma WithoutOfHeaders(lines: Lines, n: nat, added: Lines, headed: Lines, key: string) returns (n': nat)
    requires ListKey(key) && Headed(lines, n, added, headed)
    ensures Headed(Without(lines, key), n', added, Without(headed, key))
  {
    match Find(lines, key, "    ")
    case None =>
      n' := n;
      AroundNothing(lines, n, added, headed, key);
    case Some(b) =>
      if added == [] {
        n' := 0;
        WithoutNoHeaders(lines, n, headed, key);
      } else {
        HeadersOutside(lines, n, 0, key, b);
        WithoutIs(lines, key, b);
        if b.end <= n {
          n' := n - (b.end - b.at);
          AroundBehind(lines, n, added, headed, key, b);
        } else {
          n' := n;
          AroundAhead(lines, n, added, headed, key, b);
        }
      }
  }

  lemma InsertedNothing<T>(s: seq<T>, n: nat)
    requires n <= |s|
    ensures s[..n] + [] + s[n..] == s
  {
  }

  /** An accepted edit keeps every line outside the requested lists, in order, and adds at most the headers to them. */
  lemma EditKeepsTheRest(lines: Lines, lists: Lists) returns (n: nat, added: Lines)
    requires Edit(lines, lists).Ok?
    ensures n <= |Rest(lines, lists)| && IsHeader(added)
    ensures Rest(Edit(lines, lists).value, lists) == Splice(Rest(lines, lists), n, n, added)
  {
    RestOfHeaders(lines, lists);
    n, added := HeadersOnlyInserted(lines);
    var l1, h1 := lines, WithHeaders(lines).value;
    if lists.docs.Some? {
      n := WithoutOfHeaders(l1, n, added, h1, "docs");
      l1, h1 := Without(l1, "docs"), Without(h1, "docs");
    }
    if lists.cache.Some? {
      n := WithoutOfHeaders(l1, n, added, h1, "cache");
    }
  }
}
