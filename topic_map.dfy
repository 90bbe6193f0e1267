/** The topic-map resolver of examples/asciidoctor_text/convert_it_all.py:
    `node_in_distro`, `process_node` and `get_file_list`.

    A topic map is a tree of YAML mappings. A node with a `Topics` key is a
    group: its `Dir` is a directory name and `Topics` lists its children. Any
    other node is a leaf naming a `File`. `Distros` optionally restricts a
    node (and so its whole subtree) to some distros. */
module TopicMap {
  import opened Wrappers
  import opened PyStrings

  /** A path relative to the documentation root: the `Dir` names of the
      enclosing groups, then the leaf's `File` name. */
  type LogicalPath = seq<string>

  /** The `Topics` key: absent, or present with the children in listed order. */
  datatype Topics = NoTopics | Topics(children: seq<Node>)

  /** One topic-map node; `None` is a missing key. */
  datatype Node = Node(dir: Option<string>, file: Option<string>, distros: Option<string>, topics: Topics)

  /** `node_in_distro`: a node without `Distros`, or with an empty one,
      applies to every distro; otherwise `distro` must be one of the pieces of
      `Distros` split at ",", compared without trimming. */
  predicate NodeInDistro(node: Node, distro: string): (r: bool)
    ensures node.distros.GetOr("") == "" ==> r
    ensures ',' in distro ==> (r <==> node.distros.GetOr("") == "")
  {
    node.distros.GetOr("") == "" || distro in Split(node.distros.value, ',')
  }

  /** The in-scope test described as a search in the `Distros` string:
      `distro` holds no "," and stands in `Distros` between commas or the
      string's ends. */
  lemma NodeInDistroFields(node: Node, distro: string)
    requires node.distros.GetOr("") != ""
    ensures NodeInDistro(node, distro) <==>
              ',' !in distro && exists i :: FieldAt(node.distros.value, ',', distro, i)
  {
    SplitFields(node.distros.value, ',', distro);
  }

  /** Tags are not trimmed: "a, b" lists "a" and " b", not "b". */
  lemma NoTrimming(node: Node)
    requires node.distros == Some("a, b")
    ensures NodeInDistro(node, "a") && NodeInDistro(node, " b") && !NodeInDistro(node, "b")
  {
    var s := "a, b";
    assert s[1] == ',' && s[..1] == "a";
    assert IndexOf(s, ',') == 1;
    assert s[2..] == " b" && ',' !in " b";
    assert Split(s, ',') == ["a", " b"];
  }

  /** The new paths `process_node` appends for `node` under the prefix `dir`,
      or the KeyError it raises. An out-of-scope node adds nothing and its
      subtree is not visited. An in-scope group needs `Dir` and resolves its
      children in order under `dir + [Dir]`, stopping at the first error; an
      in-scope leaf needs `File` and adds `dir + [File]`. */
  function Resolve(node: Node, distro: string, dir: LogicalPath): (r: Result<seq<LogicalPath>, Error>)
    ensures r.Failure? ==> r.error == KeyError("Dir") || r.error == KeyError("File")
    decreases node, 1
  {
    if !NodeInDistro(node, distro) then Success([])
    else match node.topics
      case Topics(children) =>
        if node.dir.None? then Failure(KeyError("Dir"))
        else ResolveTopics(node, distro, dir + [node.dir.value], |children|)
      case NoTopics =>
        if node.file.None? then Failure(KeyError("File"))
        else Success([dir + [node.file.value]])
  }

  /** The paths of the first `k` children of `group`, resolved in order under
      `dir`, or the first error among them. */
  function ResolveTopics(group: Node, distro: string, dir: LogicalPath, k: nat): (r: Result<seq<LogicalPath>, Error>)
    requires group.topics.Topics? && k <= |group.topics.children|
    ensures r.Failure? ==> r.error == KeyError("Dir") || r.error == KeyError("File")
    decreases group, 0, k
  {
    if k == 0 then Success([])
    else match ResolveTopics(group, distro, dir, k - 1)
      case Failure(e) => Failure(e)
      case Success(earlier) =>
        match Resolve(group.topics.children[k - 1], distro, dir)
        case Failure(e) => Failure(e)
        case Success(more) => Success(earlier + more)
  }

  /** Once a prefix of the children fails, every longer prefix fails with the
      same error. */
  lemma {:induction false} TopicsFailurePersists(group: Node, distro: string, dir: LogicalPath, i: nat, k: nat)
    requires group.topics.Topics? && i <= k <= |group.topics.children|
    requires ResolveTopics(group, distro, dir, i).Failure?
    ensures ResolveTopics(group, distro, dir, k) == ResolveTopics(group, distro, dir, i)
    decreases k
  {
    if k > i {
      TopicsFailurePersists(group, distro, dir, i, k - 1);
    }
  }

  /** The Python list `process_node` threads through the recursion and
      appends to in place. */
  class PathList {
    var items: seq<LogicalPath>

    constructor ()
      ensures items == []
    {
      items := [];
    }

    method Append(p: LogicalPath)
      modifies this
      ensures items == old(items) + [p]
    {
      items := items + [p];
    }
  }

  /** `process_node`: walks `node` and appends the path of every in-scope
      leaf to `fileList`, or stops with the KeyError of a missing `Dir` or
      `File`. Python returns the same list object it was given; here the
      list is the mutated `fileList` and the outcome says whether an
      exception escaped. The list only ever grows, also on the error path. */
  method ProcessNode(node: Node, distro: string, dir: LogicalPath, fileList: PathList)
    returns (outcome: Result<(), Error>)
    modifies fileList
    ensures old(fileList.items) <= fileList.items
    ensures outcome.Success? <==> Resolve(node, distro, dir).Success?
    ensures outcome.Success? ==> fileList.items == old(fileList.items) + Resolve(node, distro, dir).value
    ensures outcome.Failure? ==> outcome.error == Resolve(node, distro, dir).error
    decreases node
  {
    var currentDir := dir;
    if !NodeInDistro(node, distro) {
      return Success(());
    }
    match node.topics {
      case Topics(children) =>
        if node.dir.None? {
          return Failure(KeyError("Dir"));
        }
        currentDir := currentDir + [node.dir.value];
        for i := 0 to |children|
          invariant old(fileList.items) <= fileList.items
          invariant ResolveTopics(node, distro, currentDir, i).Success?
          invariant fileList.items == old(fileList.items) + ResolveTopics(node, distro, currentDir, i).value
        {
          var sub := ProcessNode(children[i], distro, currentDir, fileList);
          assert children[i] == node.topics.children[i];
          if sub.Failure? {
            TopicsFailurePersists(node, distro, currentDir, i + 1, |children|);
            return sub;
          }
          assert ResolveTopics(node, distro, currentDir, i + 1).value
              == ResolveTopics(node, distro, currentDir, i).value + Resolve(children[i], distro, currentDir).value;
        }
      case NoTopics =>
        if node.file.None? {
          return Failure(KeyError("File"));
        }
        fileList.Append(currentDir + [node.file.value]);
    }
    return Success(());
  }

  /** The paths of a sequence of topic-map documents: each resolved from an
      empty prefix, concatenated in document order, or the first error. */
  function ResolveDocuments(docs: seq<Node>, distro: string): (r: Result<seq<LogicalPath>, Error>)
    ensures r.Failure? ==> r.error == KeyError("Dir") || r.error == KeyError("File")
  {
    if docs == [] then Success([])
    else match ResolveDocuments(docs[..|docs| - 1], distro)
      case Failure(e) => Failure(e)
      case Success(earlier) =>
        match Resolve(docs[|docs| - 1], distro, [])
        case Failure(e) => Failure(e)
        case Success(more) => Success(earlier + more)
  }

  lemma {:induction false} DocumentsFailurePersists(docs: seq<Node>, distro: string, i: nat)
    requires i <= |docs|
    requires ResolveDocuments(docs[..i], distro).Failure?
    ensures ResolveDocuments(docs, distro) == ResolveDocuments(docs[..i], distro)
    decreases |docs| - i
  {
    if i < |docs| {
      assert docs[..i + 1][..i] == docs[..i];
      DocumentsFailurePersists(docs, distro, i + 1);
    } else {
      assert docs[..i] == docs;
    }
  }

  /** Resolving two runs of documents one after the other is resolving their
      concatenation: the results are concatenated, and an error in the first
      run is the error of the whole. */
  lemma {:induction false} ResolveDocumentsAppend(d1: seq<Node>, d2: seq<Node>, distro: string)
    ensures ResolveDocuments(d1, distro).Failure? ==>
              ResolveDocuments(d1 + d2, distro) == ResolveDocuments(d1, distro)
    ensures ResolveDocuments(d1, distro).Success? && ResolveDocuments(d2, distro).Success? ==>
              ResolveDocuments(d1 + d2, distro)
              == Success(ResolveDocuments(d1, distro).value + ResolveDocuments(d2, distro).value)
    ensures ResolveDocuments(d1, distro).Success? && ResolveDocuments(d2, distro).Failure? ==>
              ResolveDocuments(d1 + d2, distro) == ResolveDocuments(d2, distro)
    decreases |d2|
  {
    if d2 == [] {
      assert d1 + d2 == d1;
      if ResolveDocuments(d1, distro).Success? {
        assert ResolveDocuments(d1, distro).value + [] == ResolveDocuments(d1, distro).value;
      }
    } else {
      var init, last := d2[..|d2| - 1], d2[|d2| - 1];
      ResolveDocumentsAppend(d1, init, distro);
      assert (d1 + d2)[..|d1 + d2| - 1] == d1 + init;
      assert (d1 + d2)[|d1 + d2| - 1] == last;
      var whole := ResolveDocuments(d1 + d2, distro);
      assert whole == match ResolveDocuments(d1 + init, distro)
        case Failure(e) => Failure(e)
        case Success(earlier) =>
          match Resolve(last, distro, [])
          case Failure(e) => Failure(e)
          case Success(more) => Success(earlier + more);
      if ResolveDocuments(d1, distro).Success? && ResolveDocuments(d2, distro).Success? {
        var v1 := ResolveDocuments(d1, distro).value;
        var vi := ResolveDocuments(init, distro).value;
        var vl := Resolve(last, distro, []).value;
        assert ResolveDocuments(d2, distro).value == vi + vl;
        assert v1 + (vi + vl) == (v1 + vi) + vl;
      }
    }
  }

  /** `get_file_list`, with the parsed documents and the distro passed in:
      each document is walked into a fresh list and the lists are
      concatenated; the first KeyError escapes. */
  method GetFileList(docs: seq<Node>, distro: string) returns (r: Result<seq<LogicalPath>, Error>)
    ensures r == ResolveDocuments(docs, distro)
  {
    var megaFileList: seq<LogicalPath> := [];
    for i := 0 to |docs|
      invariant ResolveDocuments(docs[..i], distro) == Success(megaFileList)
    {
      var fileList := new PathList();
      var outcome := ProcessNode(docs[i], distro, [], fileList);
      assert docs[..i + 1][..i] == docs[..i] && docs[..i + 1][i] == docs[i];
      if outcome.Failure? {
        DocumentsFailurePersists(docs, distro, i + 1);
        return Failure(outcome.error);
      }
      assert fileList.items == Resolve(docs[i], distro, []).value;
      megaFileList := megaFileList + fileList.items;
    }
    assert docs[..|docs|] == docs;
    return Success(megaFileList);
  }

  /** A chapter with a leaf and an "enterprise"-only subgroup: for
      "enterprise" both leaves are listed, parent first; for "community" the
      subgroup and its leaf are dropped. */
  lemma ChapterScenario()
    ensures var intro := Node(None, Some("intro"), None, NoTopics);
            var advanced := Node(None, Some("advanced"), None, NoTopics);
            var sub := Node(Some("sub"), None, Some("enterprise"), Topics([advanced]));
            var root := Node(Some("ch1"), None, None, Topics([intro, sub]));
            && Resolve(root, "enterprise", []) == Success([["ch1", "intro"], ["ch1", "sub", "advanced"]])
            && Resolve(root, "community", []) == Success([["ch1", "intro"]])
  {
    var intro := Node(None, Some("intro"), None, NoTopics);
    var advanced := Node(None, Some("advanced"), None, NoTopics);
    var sub := Node(Some("sub"), None, Some("enterprise"), Topics([advanced]));
    var root := Node(Some("ch1"), None, None, Topics([intro, sub]));
    SubScenario(sub);
    assert ["ch1"] + ["intro"] == ["ch1", "intro"];
    assert Resolve(intro, "enterprise", ["ch1"]) == Success([["ch1", "intro"]]);
    assert Resolve(intro, "community", ["ch1"]) == Success([["ch1", "intro"]]);
    assert root.topics.children[0] == intro && root.topics.children[1] == sub;
    ChapterFor(root, "enterprise", Success([["ch1", "intro"]]), Success([["ch1", "sub", "advanced"]]));
    ChapterFor(root, "community", Success([["ch1", "intro"]]), Success([]));
    var pIntro: LogicalPath, pAdvanced: LogicalPath := ["ch1", "intro"], ["ch1", "sub", "advanced"];
    assert [pIntro] + [pAdvanced] == [pIntro, pAdvanced] && [pIntro] + [] == [pIntro];
  }

  /** The group `sub`, limited to "enterprise", under `ch1`. */
  lemma SubScenario(sub: Node)
    requires sub == Node(Some("sub"), None, Some("enterprise"), Topics([Node(None, Some("advanced"), None, NoTopics)]))
    ensures Resolve(sub, "enterprise", ["ch1"]) == Success([["ch1", "sub", "advanced"]])
    ensures Resolve(sub, "community", ["ch1"]) == Success([])
  {
    var advanced := sub.topics.children[0];
    assert forall k :: 0 <= k < |"enterprise"| ==> "enterprise"[k] != ',';
    assert Split("enterprise", ',') == ["enterprise"];
    assert NodeInDistro(sub, "enterprise") && !NodeInDistro(sub, "community");
    assert ["ch1"] + ["sub"] == ["ch1", "sub"] && ["ch1", "sub"] + ["advanced"] == ["ch1", "sub", "advanced"];
    assert Resolve(advanced, "enterprise", ["ch1", "sub"]) == Success([["ch1", "sub", "advanced"]]);
    assert ResolveTopics(sub, "enterprise", ["ch1", "sub"], 0) == Success([]);
    var pAdvanced: LogicalPath := ["ch1", "sub", "advanced"];
    assert [] + [pAdvanced] == [pAdvanced];
    assert ResolveTopics(sub, "enterprise", ["ch1", "sub"], 1) == Success([pAdvanced]);
  }

  /** A two-child chapter with no `Distros` resolves to its children's paths. */
  lemma ChapterFor(root: Node, distro: string, first: Result<seq<LogicalPath>, Error>, second: Result<seq<LogicalPath>, Error>)
    requires root.dir == Some("ch1") && root.distros.None? && root.topics.Topics? && |root.topics.children| == 2
    requires Resolve(root.topics.children[0], distro, ["ch1"]) == first && first.Success?
    requires Resolve(root.topics.children[1], distro, ["ch1"]) == second && second.Success?
    ensures Resolve(root, distro, []) == Success(first.value + second.value)
  {
    assert [] + [root.dir.value] == ["ch1"];
    assert [] + first.value == first.value;
    assert ResolveTopics(root, distro, ["ch1"], 0) == Success([]);
    assert ResolveTopics(root, distro, ["ch1"], 1) == first;
  }

}
