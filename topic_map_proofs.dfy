/** What `process_node` computes, stated without its recursion: the paths it
    lists are those of the leaves reachable from the root through in-scope
    nodes only, each once, in depth-first pre-order, each the `Dir` names of
    its ancestors followed by its `File`; and it fails exactly when such a
    reachable node lacks its `Dir` or `File`. */
module TopicMapProofs {
  import opened Wrappers
  import opened TopicMap

  /** A node's position in a tree: the child indices leading to it. */
  type Address = seq<nat>

  /** Every node along `a`, from `node` down to the addressed one, is in scope
      for `distro`, and `a` leads through groups only. */
  ghost predicate InScopeAlong(node: Node, distro: string, a: Address)
    decreases a
  {
    && NodeInDistro(node, distro)
    && (a != [] ==>
          && node.topics.Topics?
          && a[0] < |node.topics.children|
          && InScopeAlong(node.topics.children[a[0]], distro, a[1..]))
  }

  /** The node at address `a` (the root itself where `a` leads nowhere). */
  function At(node: Node, a: Address): Node
    decreases a
  {
    if a != [] && node.topics.Topics? && a[0] < |node.topics.children|
    then At(node.topics.children[a[0]], a[1..])
    else node
  }

  /** `a` addresses a leaf reached from `node` through in-scope nodes only. */
  ghost predicate ReachableLeaf(node: Node, distro: string, a: Address)
  {
    InScopeAlong(node, distro, a) && At(node, a).topics.NoTopics?
  }

  /** A node that `process_node` rejects with a KeyError: a group without
      `Dir`, or a leaf without `File`. */
  predicate Malformed(node: Node)
  {
    if node.topics.Topics? then node.dir.None? else node.file.None?
  }

  /** The names along `a`: the `Dir` of each group passed, then the `File` of
      the addressed node. */
  function Label(node: Node, a: Address): LogicalPath
    decreases a
  {
    if a == [] then [node.file.GetOr("")]
    else if node.topics.Topics? && a[0] < |node.topics.children|
    then [node.dir.GetOr("")] + Label(node.topics.children[a[0]], a[1..])
    else []
  }

  function Prefixed(i: nat, s: seq<Address>): (r: seq<Address>)
    ensures |r| == |s| && forall j :: 0 <= j < |s| ==> r[j] == [i] + s[j]
  {
    seq(|s|, j requires 0 <= j < |s| => [i] + s[j])
  }

  lemma PrefixedMembership(i: nat, s: seq<Address>, a: Address)
    ensures a in Prefixed(i, s) <==> a != [] && a[0] == i && a[1..] in s
  {
    if a != [] && a[0] == i && a[1..] in s {
      var j :| 0 <= j < |s| && s[j] == a[1..];
      assert Prefixed(i, s)[j] == a;
    }
  }

  /** The addresses of the reachable leaves in depth-first pre-order. */
  function LeafAddresses(node: Node, distro: string): seq<Address>
    decreases node, 1
  {
    if !NodeInDistro(node, distro) then []
    else match node.topics
      case NoTopics => [[]]
      case Topics(children) => TopicAddresses(node, distro, |children|)
  }

  /** The addresses of the reachable leaves under the first `k` children. */
  function TopicAddresses(group: Node, distro: string, k: nat): seq<Address>
    requires group.topics.Topics? && k <= |group.topics.children|
    decreases group, 0, k
  {
    if k == 0 then []
    else TopicAddresses(group, distro, k - 1)
         + Prefixed(k - 1, LeafAddresses(group.topics.children[k - 1], distro))
  }

  /** Strict lexicographic order on addresses, a proper prefix first: the
      order in which a depth-first pre-order walk meets the nodes. */
  predicate LexLess(a: Address, b: Address)
  {
    |b| > 0 && (|a| == 0 || a[0] < b[0] || (a[0] == b[0] && LexLess(a[1..], b[1..])))
  }

  ghost predicate StrictlyOrdered(s: seq<Address>)
  {
    forall i, j :: 0 <= i < j < |s| ==> LexLess(s[i], s[j])
  }

  // ---------------------------------------------------------------------
  // Which leaves are listed

  /** An address is enumerated exactly when it leads to a leaf through
      in-scope nodes only: filtering is inherited by the whole subtree. */
  lemma {:induction false} LeafAddressesExact(node: Node, distro: string, a: Address)
    ensures a in LeafAddresses(node, distro) <==> ReachableLeaf(node, distro, a)
    decreases node, 1
  {
    if NodeInDistro(node, distro) {
      match node.topics
      case NoTopics =>
      case Topics(children) =>
        TopicAddressesExact(node, distro, |children|, a);
    }
  }

  lemma {:induction false} TopicAddressesExact(group: Node, distro: string, k: nat, a: Address)
    requires group.topics.Topics? && k <= |group.topics.children|
    ensures a in TopicAddresses(group, distro, k) <==>
              a != [] && a[0] < k && ReachableLeaf(group.topics.children[a[0]], distro, a[1..])
    decreases group, 0, k
  {
    if k > 0 {
      var c := group.topics.children[k - 1];
      TopicAddressesExact(group, distro, k - 1, a);
      PrefixedMembership(k - 1, LeafAddresses(c, distro), a);
      if a != [] && a[0] == k - 1 {
        LeafAddressesExact(c, distro, a[1..]);
      }
    }
  }

  // ---------------------------------------------------------------------
  // In which order

  lemma LexLessUnderSameParent(i: nat, x: Address, y: Address)
    requires LexLess(x, y)
    ensures LexLess([i] + x, [i] + y)
  {
    assert ([i] + x)[1..] == x && ([i] + y)[1..] == y;
  }

  lemma {:induction false} TopicAddressesFirstIndex(group: Node, distro: string, k: nat)
    requires group.topics.Topics? && k <= |group.topics.children|
    ensures forall a :: a in TopicAddresses(group, distro, k) ==> a != [] && a[0] < k
    decreases k
  {
    if k > 0 {
      TopicAddressesFirstIndex(group, distro, k - 1);
    }
  }

  /** The enumeration is strictly increasing in pre-order: every reachable
      leaf appears once, parents' earlier children first. */
  lemma {:induction false} LeafAddressesPreOrder(node: Node, distro: string)
    ensures StrictlyOrdered(LeafAddresses(node, distro))
    decreases node, 1
  {
    if NodeInDistro(node, distro) {
      match node.topics
      case NoTopics =>
      case Topics(children) =>
        TopicAddressesPreOrder(node, distro, |children|);
    }
  }

  lemma {:induction false} TopicAddressesPreOrder(group: Node, distro: string, k: nat)
    requires group.topics.Topics? && k <= |group.topics.children|
    ensures StrictlyOrdered(TopicAddresses(group, distro, k))
    decreases group, 0, k
  {
    if k > 0 {
      var earlier := TopicAddresses(group, distro, k - 1);
      var sub := LeafAddresses(group.topics.children[k - 1], distro);
      var later := Prefixed(k - 1, sub);
      var all := earlier + later;
      TopicAddressesPreOrder(group, distro, k - 1);
      TopicAddressesFirstIndex(group, distro, k - 1);
      LeafAddressesPreOrder(group.topics.children[k - 1], distro);
      forall i, j | 0 <= i < j < |all|
        ensures LexLess(all[i], all[j])
      {
        if j < |earlier| {
          assert all[i] == earlier[i] && all[j] == earlier[j];
        } else if i < |earlier| {
          assert all[i] == earlier[i] && earlier[i] in earlier;
          assert all[j] == [k - 1] + sub[j - |earlier|];
        } else {
          assert all[i] == [k - 1] + sub[i - |earlier|];
          assert all[j] == [k - 1] + sub[j - |earlier|];
          LexLessUnderSameParent(k - 1, sub[i - |earlier|], sub[j - |earlier|]);
        }
      }
    }
  }

  // ---------------------------------------------------------------------
  // With which paths

  /** `paths[j]` is `dir` followed by the names along `addrs[j]`, for every j. */
  ghost predicate LabelledBy(paths: seq<LogicalPath>, dir: LogicalPath, node: Node, addrs: seq<Address>)
  {
    |paths| == |addrs| && forall j :: 0 <= j < |addrs| ==> paths[j] == dir + Label(node, addrs[j])
  }

  lemma LabelledByAppend(p1: seq<LogicalPath>, p2: seq<LogicalPath>, dir: LogicalPath, node: Node,
                         a1: seq<Address>, a2: seq<Address>)
    requires LabelledBy(p1, dir, node, a1) && LabelledBy(p2, dir, node, a2)
    ensures LabelledBy(p1 + p2, dir, node, a1 + a2)
  {
    forall j | 0 <= j < |a1 + a2|
      ensures (p1 + p2)[j] == dir + Label(node, (a1 + a2)[j])
    {
      if j >= |a1| {
        assert (p1 + p2)[j] == p2[j - |a1|] && (a1 + a2)[j] == a2[j - |a1|];
      }
    }
  }

  lemma LabelledByChild(group: Node, i: nat, dir: LogicalPath, paths: seq<LogicalPath>, sub: seq<Address>)
    requires group.topics.Topics? && i < |group.topics.children| && group.dir.Some?
    requires LabelledBy(paths, dir + [group.dir.value], group.topics.children[i], sub)
    ensures LabelledBy(paths, dir, group, Prefixed(i, sub))
  {
    forall j | 0 <= j < |sub|
      ensures paths[j] == dir + Label(group, Prefixed(i, sub)[j])
    {
      LabelUnderGroup(group, i, sub[j]);
    }
  }

  lemma LabelUnderGroup(group: Node, i: nat, x: Address)
    requires group.topics.Topics? && i < |group.topics.children|
    ensures Label(group, [i] + x) == [group.dir.GetOr("")] + Label(group.topics.children[i], x)
  {
    assert ([i] + x)[1..] == x;
  }

  /** On success, the listed paths correspond one to one, in order, to the
      enumerated leaf addresses, and each is the prefix followed by the names
      along its address. */
  lemma {:induction false} ResolveLabels(node: Node, distro: string, dir: LogicalPath)
    requires Resolve(node, distro, dir).Success?
    ensures LabelledBy(Resolve(node, distro, dir).value, dir, node, LeafAddresses(node, distro))
    decreases node, 1
  {
    if NodeInDistro(node, distro) {
      match node.topics
      case NoTopics =>
      case Topics(children) =>
        ResolveTopicsLabels(node, distro, dir, |children|);
    }
  }

  lemma {:induction false} ResolveTopicsLabels(group: Node, distro: string, dir: LogicalPath, k: nat)
    requires NodeInDistro(group, distro) && group.topics.Topics? && group.dir.Some?
    requires k <= |group.topics.children|
    requires ResolveTopics(group, distro, dir + [group.dir.value], k).Success?
    ensures LabelledBy(ResolveTopics(group, distro, dir + [group.dir.value], k).value,
                       dir, group, TopicAddresses(group, distro, k))
    decreases group, 0, k
  {
    if k > 0 {
      var inner := dir + [group.dir.value];
      var c := group.topics.children[k - 1];
      ResolveTopicsLabels(group, distro, dir, k - 1);
      ResolveLabels(c, distro, inner);
      LabelledByChild(group, k - 1, dir, Resolve(c, distro, inner).value, LeafAddresses(c, distro));
      LabelledByAppend(ResolveTopics(group, distro, inner, k - 1).value, Resolve(c, distro, inner).value,
                       dir, group, TopicAddresses(group, distro, k - 1),
                       Prefixed(k - 1, LeafAddresses(c, distro)));
    }
  }

  /** The number of listed paths is the number of reachable in-scope leaves,
      and the listed paths follow the enumeration's pre-order. */
  lemma ResolveEnumeratesLeaves(node: Node, distro: string, dir: LogicalPath)
    requires Resolve(node, distro, dir).Success?
    ensures |Resolve(node, distro, dir).value| == |LeafAddresses(node, distro)|
    ensures StrictlyOrdered(LeafAddresses(node, distro))
    ensures forall a :: a in LeafAddresses(node, distro) <==> ReachableLeaf(node, distro, a)
    ensures forall j :: 0 <= j < |LeafAddresses(node, distro)| ==>
              Resolve(node, distro, dir).value[j] == dir + Label(node, LeafAddresses(node, distro)[j])
  {
    ResolveLabels(node, distro, dir);
    assert LabelledBy(Resolve(node, distro, dir).value, dir, node, LeafAddresses(node, distro));
    LeafAddressesPreOrder(node, distro);
    forall a
      ensures a in LeafAddresses(node, distro) <==> ReachableLeaf(node, distro, a)
    {
      LeafAddressesExact(node, distro, a);
    }
  }

  // ---------------------------------------------------------------------
  // When it fails

  lemma {:induction false} ChildFailureFailsTopics(group: Node, distro: string, dir: LogicalPath, i: nat, k: nat)
    requires group.topics.Topics? && i < k <= |group.topics.children|
    requires Resolve(group.topics.children[i], distro, dir).Failure?
    ensures ResolveTopics(group, distro, dir, k).Failure?
    decreases k
  {
    if i < k - 1 {
      ChildFailureFailsTopics(group, distro, dir, i, k - 1);
    }
  }

  /** A malformed node reached through in-scope nodes makes the walk fail. */
  lemma {:induction false} MalformedFails(node: Node, distro: string, dir: LogicalPath, a: Address)
    requires InScopeAlong(node, distro, a) && Malformed(At(node, a))
    ensures Resolve(node, distro, dir).Failure?
    decreases a
  {
    if a != [] && node.dir.Some? {
      var inner := dir + [node.dir.value];
      MalformedFails(node.topics.children[a[0]], distro, inner, a[1..]);
      ChildFailureFailsTopics(node, distro, inner, a[0], |node.topics.children|);
    }
  }

  lemma {:induction false} FailureWitness(node: Node, distro: string, dir: LogicalPath) returns (a: Address)
    requires Resolve(node, distro, dir).Failure?
    ensures InScopeAlong(node, distro, a) && Malformed(At(node, a))
    decreases node, 1
  {
    if Malformed(node) {
      a := [];
    } else {
      var i, b := TopicsFailureWitness(node, distro, dir + [node.dir.value], |node.topics.children|);
      a := [i] + b;
      assert a[1..] == b;
    }
  }

  lemma {:induction false} TopicsFailureWitness(group: Node, distro: string, dir: LogicalPath, k: nat)
    returns (i: nat, b: Address)
    requires group.topics.Topics? && k <= |group.topics.children|
    requires ResolveTopics(group, distro, dir, k).Failure?
    ensures i < k && InScopeAlong(group.topics.children[i], distro, b)
    ensures Malformed(At(group.topics.children[i], b))
    decreases group, 0, k
  {
    if ResolveTopics(group, distro, dir, k - 1).Failure? {
      i, b := TopicsFailureWitness(group, distro, dir, k - 1);
    } else {
      i := k - 1;
      b := FailureWitness(group.topics.children[k - 1], distro, dir);
    }
  }

  /** `process_node` raises KeyError exactly when some node reached through
      in-scope nodes only is a group without `Dir` or a leaf without `File`;
      malformed nodes inside filtered-out subtrees are never looked at. */
  lemma ResolveFailsExactly(node: Node, distro: string, dir: LogicalPath)
    ensures Resolve(node, distro, dir).Failure? <==>
              exists a: Address :: InScopeAlong(node, distro, a) && Malformed(At(node, a))
  {
    if Resolve(node, distro, dir).Failure? {
      var a := FailureWitness(node, distro, dir);
      assert InScopeAlong(node, distro, a) && Malformed(At(node, a));
      assert exists b: Address :: InScopeAlong(node, distro, b) && Malformed(At(node, b));
    } else {
      forall a: Address | InScopeAlong(node, distro, a)
        ensures !Malformed(At(node, a))
      {
        if Malformed(At(node, a)) {
          MalformedFails(node, distro, dir, a);
        }
      }
    }
  }
}
