/**
 * Agents over a sorted set of names: what an honest one answers, what lies below a root, and an agent that is honest.
 */
module Agents {
  import opened Bytes
  import opened Oids
  import opened OidOrder
  import opened Trees
  import opened Messages
  import opened Operations
  import opened OperationLaws
  import opened Engine

  // ----- the agent -----

  /** What an agent has: its object names in numeric order, and what it may answer for a name. */
  datatype Agent = Agent(mib: seq<Text>, says: (Text, Ber) -> bool)

  /** Canonical names in strictly increasing order. */
  ghost predicate SortedMib(mib: seq<Text>) {
    && (forall i :: 0 <= i < |mib| ==> Canonical(mib[i]))
    && (forall i, j :: 0 <= i < j < |mib| ==> Compare(mib[i], mib[j]) < 0)
  }

  /** The number of names that do not come after c. */
  function Rank(mib: seq<Text>, c: Text): (n: nat)
    ensures n <= |mib|
  {
    if mib == [] || Compare(mib[0], c) > 0 then 0 else 1 + Rank(mib[1..], c)
  }

  /** The strict descendants of a root, in the order of the agent. */
  function Members(mib: seq<Text>, root: Text): seq<Text> {
    if mib == [] then []
    else Members(mib[..|mib| - 1], root) + (if Under(root, mib[|mib| - 1]) then [mib[|mib| - 1]] else [])
  }

  /**
   * Successive successors from position n on, and endOfMibView past the last one. One for GetNext, up to four
   * for GetBulk, possibly none: the proof needs no bound on their number.
   */
  ghost predicate Successors(agent: Agent, n: nat, bs: seq<Binding>) {
    forall i :: 0 <= i < |bs| ==>
      if n + i < |agent.mib| then
        bs[i].name == agent.mib[n + i] && bs[i].value.Tag() != ENDOFMIBVIEW && agent.says(bs[i].name, bs[i].value)
      else bs[i].value.Tag() == ENDOFMIBVIEW
  }

  /**
   * An honest answer to a walk request. Errors may be reported at any time, except that v1 noSuchName means the end.
   */
  ghost predicate HonestReply(agent: Agent, e: Sent, m: Message) {
    && (m.errorStatus == 0 ==> Successors(agent, Rank(agent.mib, e.cursor), m.bindings))
    && (m.errorStatus == 2 && e.version == 0 ==> Rank(agent.mib, e.cursor) == |agent.mib|)
  }

  // ----- facts about names -----

  lemma {:induction false} RankIs(mib: seq<Text>, c: Text, i: nat)
    requires SortedMib(mib) && i < |mib| && Canonical(c)
    ensures Compare(mib[i], c) <= 0 <==> i < Rank(mib, c)
    decreases |mib|
  {
    hide Lex, ArcsOf, Canonical;
    if Compare(mib[0], c) > 0 {
      if i > 0 {
        Above(mib[i], mib[0], c);
      }
    } else if i > 0 {
      assert SortedMib(mib[1..]);
      RankIs(mib[1..], c, i - 1);
    }
  }

  /** c < b < a. */
  lemma {:induction false} Above(a: Text, b: Text, c: Text)
    requires Compare(b, a) < 0 && Compare(b, c) > 0
    ensures Compare(a, c) > 0
  {
    hide Lex, ArcsOf;
    LexSwap(ArcsOf(b), ArcsOf(c));
    BelowTransitive(ArcsOf(c), ArcsOf(b), ArcsOf(a));
    LexSwap(ArcsOf(c), ArcsOf(a));
  }

  lemma {:induction false} MembersSnoc(mib: seq<Text>, n: nat, root: Text)
    requires n < |mib|
    ensures Members(mib[..n + 1], root) == Members(mib[..n], root) + (if Under(root, mib[n]) then [mib[n]] else [])
  {
    assert mib[..n + 1][..n] == mib[..n];
  }

  lemma {:induction false} NoMoreMembers(mib: seq<Text>, n: nat, m: nat, root: Text)
    requires n <= m <= |mib| && forall i :: n <= i < m ==> !Under(root, mib[i])
    ensures Members(mib[..m], root) == Members(mib[..n], root)
    decreases m
  {
    if n < m {
      NoMoreMembers(mib, n, m - 1, root);
      MembersSnoc(mib, m - 1, root);
    }
  }

  /** Members are the names of the agent strictly below the root: none other, none missing, increasing. */
  lemma {:induction false} MembersExact(mib: seq<Text>, root: Text, x: Text)
    requires SortedMib(mib) && Canonical(root)
    ensures x in Members(mib, root) <==> x in mib && StrictPrefix(ArcsOf(root), ArcsOf(x))
    ensures Chain(root, Members(mib, root))
    decreases |mib|
  {
    hide Canonical, Under, StrictPrefix, Compare, ArcsOf;
    if mib != [] {
      var before, last := mib[..|mib| - 1], mib[|mib| - 1];
      assert mib == before + [last];
      assert SortedMib(before);
      assert x in mib <==> x in before || x == last;
      MembersExact(before, root, x);
      UnderIsPrefix(root, last);
      var names := Members(before, root);
      forall i | 0 <= i < |names|
        ensures Compare(names[i], last) < 0
      {
        MembersExact(before, root, names[i]);
        assert names[i] in Members(before, root);
        var j :| 0 <= j < |before| && before[j] == names[i];
        assert mib[j] == names[i];
      }
    }
  }

  /** Nothing up to the root lies below it. */
  lemma {:induction false} NoMembersUpToRoot(mib: seq<Text>, root: Text)
    requires SortedMib(mib) && Canonical(root)
    ensures Members(mib[..Rank(mib, root)], root) == []
  {
    hide Canonical, Under, StrictPrefix, ArcsOf, Lex, Members, Rank;
    var n := Rank(mib, root);
    forall i | 0 <= i < n
      ensures !Under(root, mib[i])
    {
      RankIs(mib, root, i);
      if Under(root, mib[i]) {
        UnderIsPrefix(root, mib[i]);
        PrefixIsBelow(ArcsOf(root), ArcsOf(mib[i]));
        LexSwap(ArcsOf(root), ArcsOf(mib[i]));
      }
    }
    NoMoreMembers(mib, 0, n, root);
    NoMembers(mib, root);
  }

  lemma {:induction false} NoMembers(mib: seq<Text>, root: Text)
    ensures Members(mib[..0], root) == []
  {}

  /** Once a successor lies outside the subtree, so does everything after it. */
  lemma {:induction false} LeftForGood(mib: seq<Text>, root: Text, c: Text, n: nat, i: nat)
    requires SortedMib(mib) && Canonical(root) && Canonical(c) && (c == root || Under(root, c))
    requires Rank(mib, c) == n < |mib| && !Under(root, mib[n]) && n <= i < |mib|
    ensures !Under(root, mib[i])
  {
    hide Canonical, Under, StrictPrefix, ArcsOf, Lex, Rank;
    if Under(root, mib[i]) {
      RankIs(mib, c, n);
      assert i != n;
      var r, a, x, y := ArcsOf(root), ArcsOf(c), ArcsOf(mib[n]), ArcsOf(mib[i]);
      LexSwap(x, a);
      assert Below(a, x) && Below(x, y);
      if c != root {
        UnderIsPrefix(root, c);
        PrefixIsBelow(r, a);
        BelowTransitive(r, a, x);
      }
      UnderIsPrefix(root, mib[i]);
      SubtreeContiguous(r, x, y);
      UnderIsPrefix(root, mib[n]);
    }
  }

  lemma {:induction false} RankNext(mib: seq<Text>, c: Text, n: nat)
    requires SortedMib(mib) && n < |mib| && c == mib[n]
    ensures Rank(mib, c) == n + 1
  {
    hide Canonical, Rank, ArcsOf, Lex;
    RankIs(mib, c, n);
    TextIdentity(mib[n], c);
    if n + 1 < |mib| {
      RankIs(mib, c, n + 1);
      LexSwap(ArcsOf(mib[n]), ArcsOf(mib[n + 1]));
    }
  }

  // ----- an honest agent -----

  /** The answers to n successive upper-bound searches, each from the name found before. */
  function NextBindings(mib: seq<Text>, values: seq<Ber>, c: Text, n: nat): (bs: seq<Binding>)
    requires |values| == |mib|
    ensures |bs| == n
    decreases n
  {
    if n == 0 then []
    else
      var r := Rank(mib, c);
      if r < |mib| then [Binding(mib[r], values[r])] + NextBindings(mib, values, mib[r], n - 1)
      else [Binding(c, Raw(ENDOFMIBVIEW, []))] + NextBindings(mib, values, c, n - 1)
  }

  /** What the agent sends back for a walk request. */
  function AgentReply(mib: seq<Text>, values: seq<Ber>, e: Sent, community: seq<byte>): Message
    requires |values| == |mib|
  {
    var ended := e.version == 0 && Rank(mib, e.cursor) == |mib|;
    var n := if e.mode == GETBULK then REPETITIONS else 1;
    Message(e.version + 1, community, RESPONSE, e.id, if ended then 2 else 0, if ended then 1 else 0,
            if ended then [] else NextBindings(mib, values, e.cursor, n))
  }

  lemma {:induction false} FoundNext(agent: Agent, n: nat, b: Binding, rest: seq<Binding>)
    requires n < |agent.mib| && b.name == agent.mib[n] && b.value.Tag() != ENDOFMIBVIEW && agent.says(b.name, b.value)
    requires Successors(agent, n + 1, rest)
    ensures Successors(agent, n, [b] + rest)
  {
    var bs := [b] + rest;
    forall i | 0 <= i < |bs|
      ensures if n + i < |agent.mib| then
                && bs[i].name == agent.mib[n + i] && bs[i].value.Tag() != ENDOFMIBVIEW
                && agent.says(bs[i].name, bs[i].value)
              else bs[i].value.Tag() == ENDOFMIBVIEW
    {
      if i > 0 {
        assert bs[i] == rest[i - 1] && n + 1 + (i - 1) == n + i;
      }
    }
  }

  lemma {:induction false} FoundEnd(agent: Agent, n: nat, b: Binding, rest: seq<Binding>)
    requires n >= |agent.mib| && b.value.Tag() == ENDOFMIBVIEW && Successors(agent, n, rest)
    ensures Successors(agent, n, [b] + rest)
  {
    var bs := [b] + rest;
    assert forall i :: 1 <= i < |bs| ==> bs[i] == rest[i - 1];
  }

  lemma {:induction false} NextAreSuccessors(agent: Agent, values: seq<Ber>, c: Text, n: nat)
    requires SortedMib(agent.mib) && Canonical(c) && Holding(agent, values)
    ensures Successors(agent, Rank(agent.mib, c), NextBindings(agent.mib, values, c, n))
    decreases n
  {
    hide Canonical, Rank, Compare, Successors;
    var mib, r := agent.mib, Rank(agent.mib, c);
    if n == 0 {
      NoSuccessors(agent, r);
    } else if r < |mib| {
      RankNext(mib, mib[r], r);
      NextAreSuccessors(agent, values, mib[r], n - 1);
      FoundNext(agent, r, Binding(mib[r], values[r]), NextBindings(mib, values, mib[r], n - 1));
    } else {
      NextAreSuccessors(agent, values, c, n - 1);
      FoundEnd(agent, r, Binding(c, Raw(ENDOFMIBVIEW, [])), NextBindings(mib, values, c, n - 1));
    }
  }

  lemma {:induction false} NoSuccessors(agent: Agent, n: nat)
    ensures Successors(agent, n, [])
  {}

  /** Present values that the agent may answer. */
  ghost predicate Holding(agent: Agent, values: seq<Ber>) {
    |values| == |agent.mib| &&
    forall i :: 0 <= i < |values| ==> values[i].Tag() != ENDOFMIBVIEW && agent.says(agent.mib[i], values[i])
  }

  /** Every walk request that a client can send has an honest answer, and this agent gives it. */
  lemma {:induction false} AgentIsHonest(agent: Agent, values: seq<Ber>, e: Sent, community: seq<byte>)
    requires SortedMib(agent.mib) && Canonical(e.cursor) && Holding(agent, values)
    ensures HonestReply(agent, e, AgentReply(agent.mib, values, e, community))
  {
    hide Canonical, Rank, SortedMib, Successors, NextBindings;
    NextAreSuccessors(agent, values, e.cursor, if e.mode == GETBULK then REPETITIONS else 1);
  }
}
