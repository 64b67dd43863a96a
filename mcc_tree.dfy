/** The key/value map of an MCC file or scan (src/proton/mcc/mcc-tree.c): an
    unbalanced binary tree whose nodes hold a key and the text that followed
    it. The heap is an arena: `nodes[i]` is the i-th node allocated since the
    map was last emptied, and a child pointer is the index of the child, or
    `Null`. A node is only ever attached below an older one, so every child
    index is larger than its parent's. */
module MccTree {
  import opened Wrappers
  import opened CText

  const Null: int := -1

  datatype Node = Node(key: string, value: string, left: int, right: int)

  /** A C string's characters: no NUL among them. */
  predicate NulFree(s: string)
  {
    forall c :: c in s ==> c != '\0'
  }

  /** `strsegcmp(cmp, seg, seg + |seg|)` (mcc-tree.c:23-34), comparing from
      index `i` on. */
  function StrSegCmpFrom(cmp: string, seg: string, i: nat): (r: int)
    requires i <= |seg|
    ensures r == -1 || r == 0 || r == 1
    decreases |seg| - i
  {
    if i == |seg| then (if At(cmp, i) != '\0' then 1 else 0)
    else if At(cmp, i) != seg[i] then -1
    else StrSegCmpFrom(cmp, seg, i + 1)
  }

  function StrSegCmp(cmp: string, seg: string): (r: int)
    ensures r == -1 || r == 0 || r == 1
  {
    StrSegCmpFrom(cmp, seg, 0)
  }

  /** `strsegcmp` is 0 exactly when the segment is the whole of `cmp`, 1
      exactly when it is a proper prefix of `cmp`, and -1 on any mismatch:
      it is an equality test, not an ordering. */
  lemma StrSegCmpMeaning(cmp: string, seg: string)
    requires NulFree(cmp) && NulFree(seg)
    ensures StrSegCmp(cmp, seg) == 0 <==> seg == cmp
    ensures StrSegCmp(cmp, seg) == 1 <==> |seg| < |cmp| && seg == cmp[..|seg|]
    ensures StrSegCmp(cmp, seg) == -1 <==> seg != cmp && !(|seg| < |cmp| && seg == cmp[..|seg|])
  {
    StrSegCmpFromMeaning(cmp, seg, 0);
  }

  lemma {:induction false} StrSegCmpFromMeaning(cmp: string, seg: string, i: nat)
    requires NulFree(cmp) && NulFree(seg)
    requires i <= |seg| && i <= |cmp| && cmp[..i] == seg[..i]
    ensures StrSegCmpFrom(cmp, seg, i) == 0 <==> seg == cmp
    ensures StrSegCmpFrom(cmp, seg, i) == 1 <==> |seg| < |cmp| && seg == cmp[..|seg|]
    decreases |seg| - i
  {
    if i == |seg| {
      assert seg == cmp[..i];
      if i < |cmp| {
        assert cmp[i] in cmp;
      }
    } else if i == |cmp| {
      assert seg[i] in seg;
      assert seg != cmp;
    } else if cmp[i] != seg[i] {
      assert seg != cmp;
      assert |seg| < |cmp| ==> cmp[..|seg|][i] == cmp[i];
    } else {
      assert cmp[..i + 1] == cmp[..i] + [cmp[i]];
      assert seg[..i + 1] == seg[..i] + [seg[i]];
      StrSegCmpFromMeaning(cmp, seg, i + 1);
    }
  }

  /** `strcmp` reduced to its sign, comparing from index `i` on. */
  function StrCmpFrom(a: string, b: string, i: nat): (r: int)
    ensures r == -1 || r == 0 || r == 1
    decreases |a| - i
  {
    if At(a, i) != At(b, i) then (if At(a, i) < At(b, i) then -1 else 1)
    else if At(a, i) == '\0' then 0
    else StrCmpFrom(a, b, i + 1)
  }

  function StrCmp(a: string, b: string): (r: int)
    ensures r == -1 || r == 0 || r == 1
  {
    StrCmpFrom(a, b, 0)
  }

  /** `strcmp` is 0 exactly on equal C strings. */
  lemma {:induction false} StrCmpFromZero(a: string, b: string, i: nat)
    requires NulFree(a) && NulFree(b)
    requires i <= |a| && i <= |b| && a[..i] == b[..i]
    ensures StrCmpFrom(a, b, i) == 0 <==> a == b
    decreases |a| - i
  {
    if i < |a| {
      assert a[i] in a;
    }
    if i < |b| {
      assert b[i] in b;
    }
    if i < |a| && i < |b| && a[i] == b[i] {
      assert a[..i + 1] == a[..i] + [a[i]];
      assert b[..i + 1] == b[..i] + [b[i]];
      StrCmpFromZero(a, b, i + 1);
    } else if i == |a| && i == |b| {
      assert a == a[..i] && b == b[..i];
    } else if i < |a| && i < |b| {
      assert a[i] != b[i];
    } else {
      assert |a| != |b|;
    }
  }

  /** The child pointers of `nodes` point forward and into the arena. */
  predicate Linked(nodes: seq<Node>)
  {
    forall i :: 0 <= i < |nodes| ==> ChildOk(i, nodes[i].left, |nodes|) && ChildOk(i, nodes[i].right, |nodes|)
  }

  predicate ChildOk(i: int, c: int, n: int)
  {
    c == Null || i < c < n
  }

  /** Where an insertion ends: at the node holding the key, or at the empty
      child of `parent` on the `right` side or the left (`parent` is `Null`
      for an empty map). */
  datatype Place = Found(index: nat) | Vacant(parent: int, right: bool)

  /** The walk of `mcc_insert_recur` (mcc-tree.c:82-105) from `node`: -1 goes
      left, 0 stops, 1 goes right. */
  function Descend(nodes: seq<Node>, node: nat, key: string): (p: Place)
    requires Linked(nodes) && node < |nodes|
    ensures p.Found? ==> node <= p.index < |nodes| && StrSegCmp(nodes[p.index].key, key) == 0
    ensures p.Vacant? ==>
      node <= p.parent < |nodes| && (if p.right then nodes[p.parent].right else nodes[p.parent].left) == Null
    decreases |nodes| - node
  {
    var c := StrSegCmp(nodes[node].key, key);
    if c == 0 then Found(node)
    else
      var child := if c == -1 then nodes[node].left else nodes[node].right;
      if child == Null then Vacant(node, c == 1) else Descend(nodes, child, key)
  }

  /** Where `insert_mcc_kvpair` (mcc-tree.c:107-115) puts `key`. */
  function InsertPlace(nodes: seq<Node>, key: string): (p: Place)
    requires Linked(nodes)
    ensures p.Vacant? ==> (p.parent == Null <==> |nodes| == 0)
  {
    if |nodes| == 0 then Vacant(Null, false) else Descend(nodes, 0, key)
  }

  /** The arena once `node` is allocated and hung on the given child of
      `parent`. */
  function Attach(nodes: seq<Node>, parent: int, right: bool, node: Node): (r: seq<Node>)
    requires parent == Null || 0 <= parent < |nodes|
    ensures |r| == |nodes| + 1 && r[|nodes|] == node
  {
    var n := |nodes|;
    var grown := nodes + [node];
    if parent == Null then grown
    else if right then grown[parent := grown[parent].(right := n)]
    else grown[parent := grown[parent].(left := n)]
  }

  /** Every key stored is where an insertion of it would look. */
  predicate Searchable(nodes: seq<Node>)
  {
    Linked(nodes) && forall i :: 0 <= i < |nodes| ==> Descend(nodes, 0, nodes[i].key) == Found(i)
  }

  /** Attaching a leaf at a vacant child leaves every other walk as it was,
      and the walk that ended at that child now continues into the leaf. */
  lemma {:induction false} DescendAfterAttach(nodes: seq<Node>, parent: nat, right: bool, node: Node, start: nat, key: string)
    requires Linked(nodes) && parent < |nodes| && start < |nodes|
    requires (if right then nodes[parent].right else nodes[parent].left) == Null
    requires node.left == Null && node.right == Null
    ensures Linked(Attach(nodes, parent, right, node))
    ensures var grown := Attach(nodes, parent, right, node);
      Descend(grown, start, key) ==
        if Descend(nodes, start, key) == Vacant(parent, right) then Descend(grown, |nodes|, key)
        else Descend(nodes, start, key)
    decreases |nodes| - start
  {
    var grown := Attach(nodes, parent, right, node);
    assert forall i :: 0 <= i < |nodes| && i != parent ==> grown[i] == nodes[i];
    assert grown[parent].key == nodes[parent].key;
    var c := StrSegCmp(nodes[start].key, key);
    if c != 0 {
      var child := if c == -1 then nodes[start].left else nodes[start].right;
      if child != Null {
        DescendAfterAttach(nodes, parent, right, node, child, key);
      }
    }
  }

  /** A successful insertion of a new key keeps the map searchable and makes
      the key found at the new node. */
  lemma AttachSearchable(nodes: seq<Node>, key: string, value: string)
    requires Searchable(nodes) && NulFree(key)
    requires InsertPlace(nodes, key).Vacant?
    ensures var p := InsertPlace(nodes, key);
      var grown := Attach(nodes, p.parent, p.right, Node(key, value, Null, Null));
      Searchable(grown) && InsertPlace(grown, key) == Found(|nodes|)
  {
    var p := InsertPlace(nodes, key);
    var node := Node(key, value, Null, Null);
    var grown := Attach(nodes, p.parent, p.right, node);
    StrSegCmpMeaning(key, key);
    if |nodes| == 0 {
      assert Descend(grown, 0, key) == Found(0);
    } else {
      DescendAfterAttach(nodes, p.parent, p.right, node, 0, key);
      forall i | 0 <= i < |grown|
        ensures Descend(grown, 0, grown[i].key) == Found(i)
      {
        if i < |nodes| {
          assert grown[i].key == nodes[i].key;
          DescendAfterAttach(nodes, p.parent, p.right, node, 0, nodes[i].key);
        }
      }
    }
  }

  /** The walk of `mcc_map_lookup` (mcc-tree.c:117-133) from `node`, with
      `strcmp` as written: -1 goes left, 1 goes right. */
  function WalkAsWritten(nodes: seq<Node>, node: int, key: string): Option<string>
    requires Linked(nodes) && (node == Null || 0 <= node < |nodes|)
    decreases if node == Null then 0 else |nodes| - node
  {
    if node == Null then None
    else
      var c := StrCmp(nodes[node].key, key);
      if c == 0 then Some(nodes[node].value)
      else WalkAsWritten(nodes, if c == -1 then nodes[node].left else nodes[node].right, key)
  }

  /** Whatever the lookup as written returns is the value of a node whose
      key is the query. */
  lemma {:induction false} WalkAsWrittenSound(nodes: seq<Node>, node: int, key: string)
    requires Linked(nodes) && (node == Null || 0 <= node < |nodes|)
    requires NulFree(key) && forall i :: 0 <= i < |nodes| ==> NulFree(nodes[i].key)
    ensures var r := WalkAsWritten(nodes, node, key);
      r.Some? ==> exists i :: 0 <= i < |nodes| && nodes[i].key == key && nodes[i].value == r.value
    decreases if node == Null then 0 else |nodes| - node
  {
    if node != Null {
      var c := StrCmp(nodes[node].key, key);
      StrCmpFromZero(nodes[node].key, key, 0);
      if c != 0 {
        WalkAsWrittenSound(nodes, if c == -1 then nodes[node].left else nodes[node].right, key);
      }
    }
  }

  /** Insertion orders keys by `strsegcmp` and lookup by `strcmp`, so a key
      stored to the left of a larger one is looked for on the right: after
      inserting "b" then "a", the lookup as written does not find "a", where a
      walk by insertion's own comparison does. */
  lemma LookupMissesInsertedKey()
    ensures var one := Attach([], Null, false, Node("b", "1", Null, Null));
      InsertPlace(one, "a") == Vacant(0, false) &&
      var two := Attach(one, 0, false, Node("a", "2", Null, Null));
      two[1].key == "a" && WalkAsWritten(two, 0, "a") == None && Descend(two, 0, "a") == Found(1)
  {
    var one := Attach([], Null, false, Node("b", "1", Null, Null));
    assert StrSegCmp("b", "a") == -1;
    var two := Attach(one, 0, false, Node("a", "2", Null, Null));
    assert two == [Node("b", "1", 1, Null), Node("a", "2", Null, Null)];
    assert StrCmp("b", "a") == 1;
    assert StrSegCmp("a", "a") == 0;
  }

  /** `new_mcc_map_node`'s key and value: the text before `keyEnd` and the C
      string after it. */
  function NodeFor(text: string, keyEnd: nat): Node
    requires keyEnd < |text|
  {
    Node(text[..keyEnd], CString(text, keyEnd + 1), Null, Null)
  }

  /** `mccstrdup` (mcc-tree.c:6-21): a fresh buffer holding the C string `s`
      and its terminator. */
  method StrDup(s: string) returns (out: array<char>)
    ensures fresh(out) && out[..] == CString(s, 0) + ['\0']
  {
    var copy := CString(s, 0) + ['\0'];
    var n := |copy|;
    out := new char[n];
    var i := 0;
    while i < n
      invariant 0 <= i <= n
      invariant out[..i] == copy[..i]
    {
      out[i] := At(s, i);
      assert At(s, i) == copy[i];
      i := i + 1;
    }
    assert out[..] == out[..n];
  }

  /** `new_mcc_map_node` (mcc-tree.c:63-80): copies the text from the key to
      the end of the line, ends the key at `keyEnd` and takes the value from
      just past it. `None` when allocation fails. */
  method NewNode(text: string, keyEnd: nat, allocOk: bool) returns (node: Option<Node>)
    requires keyEnd < |CString(text, 0)|
    ensures node.Some? <==> allocOk
    ensures node.Some? ==> node.value == NodeFor(text, keyEnd)
    ensures node.Some? ==> NulFree(node.value.key) && NulFree(node.value.value)
  {
    if !allocOk {
      return None;
    }
    var buf := StrDup(text);
    buf[keyEnd] := '\0';
    var copied := buf[..];
    var key := CString(copied, 0);
    var value := CString(copied, keyEnd + 1);
    NodeStrings(text, keyEnd, copied);
    node := Some(Node(key, value, Null, Null));
  }

  /** The strings read out of the copied buffer once its key is terminated. */
  lemma NodeStrings(text: string, keyEnd: nat, copied: string)
    requires keyEnd < |CString(text, 0)|
    requires copied == (CString(text, 0) + ['\0'])[keyEnd := '\0']
    ensures CString(copied, 0) == text[..keyEnd]
    ensures CString(copied, keyEnd + 1) == CString(text, keyEnd + 1)
    ensures NulFree(text[..keyEnd]) && NulFree(CString(text, keyEnd + 1))
  {
    var line := CString(text, 0);
    var m := |line|;
    assert forall k :: 0 <= k < m ==> line[k] in line;
    SpanUnique(copied, 0, keyEnd, NonNul);
    assert copied[..keyEnd] == text[..keyEnd];
    SpanUnique(copied, keyEnd + 1, m, NonNul);
    SpanUnique(text, keyEnd + 1, m, NonNul);
    assert forall c :: c in text[..keyEnd] ==> c in line;
  }

  /** The map of a file or scan. */
  class MccMap {
    var nodes: seq<Node>
    var root: int

    ghost predicate Valid()
      reads this
    {
      Searchable(nodes) && root == (if |nodes| == 0 then Null else 0) &&
      forall i :: 0 <= i < |nodes| ==> NulFree(nodes[i].key)
    }

    /** `new_mcc_map` (mcc-tree.c:36-44): an empty map. */
    constructor ()
      ensures Valid() && nodes == [] && root == Null
    {
      nodes := [];
      root := Null;
    }

    /** `insert_mcc_kvpair` (mcc-tree.c:107-115) for the assignment
        `text`, whose key ends at the '=' at `keyEnd`: a key already present
        leaves the map alone (the first value wins); otherwise one leaf is
        attached where the walk ended. Non-zero only when allocation fails. */
    method Insert(text: string, keyEnd: nat, allocOk: bool) returns (err: int)
      requires Valid() && keyEnd < |CString(text, 0)|
      modifies this
      ensures Valid()
      ensures var p := InsertPlace(old(nodes), text[..keyEnd]);
        if p.Found? then err == 0 && nodes == old(nodes)
        else if allocOk then err == 0 && nodes == Attach(old(nodes), p.parent, p.right, NodeFor(text, keyEnd))
        else err == 1 && nodes == old(nodes)
      ensures (exists i :: 0 <= i < |old(nodes)| && old(nodes)[i].key == text[..keyEnd]) ==> err == 0 && nodes == old(nodes)
    {
      var key := text[..keyEnd];
      if root == Null {
        var made := NewNode(text, keyEnd, allocOk);
        if made.None? {
          return 1;
        }
        AttachSearchable(nodes, key, made.value.value);
        nodes := [made.value];
        root := 0;
        err := 0;
      } else {
        err := InsertBelow(0, text, keyEnd, allocOk);
      }
      if exists i :: 0 <= i < |old(nodes)| && old(nodes)[i].key == key {
        var i :| 0 <= i < |old(nodes)| && old(nodes)[i].key == key;
        assert Descend(old(nodes), 0, old(nodes)[i].key) == Found(i);
      }
    }

    /** `mcc_insert_recur` (mcc-tree.c:82-105) at `node`, a node on the
        insertion walk of the key. */
    method InsertBelow(node: nat, text: string, keyEnd: nat, allocOk: bool) returns (err: int)
      requires Valid() && node < |nodes| && keyEnd < |CString(text, 0)|
      requires InsertPlace(nodes, text[..keyEnd]) == Descend(nodes, node, text[..keyEnd])
      modifies this
      ensures Valid() && root == old(root)
      ensures var p := InsertPlace(old(nodes), text[..keyEnd]);
        if p.Found? then err == 0 && nodes == old(nodes)
        else if allocOk then err == 0 && nodes == Attach(old(nodes), p.parent, p.right, NodeFor(text, keyEnd))
        else err == 1 && nodes == old(nodes)
      decreases |nodes| - node
    {
      var key := text[..keyEnd];
      var c := StrSegCmp(nodes[node].key, key);
      if c == 0 {
        return 0;
      }
      var child := if c == -1 then nodes[node].left else nodes[node].right;
      if child != Null {
        err := InsertBelow(child, text, keyEnd, allocOk);
        return;
      }
      var made := NewNode(text, keyEnd, allocOk);
      if made.None? {
        return 1;
      }
      AttachSearchable(nodes, key, made.value.value);
      var n := |nodes|;
      nodes := nodes + [made.value];
      if c == -1 {
        nodes := nodes[node := nodes[node].(left := n)];
      } else {
        nodes := nodes[node := nodes[node].(right := n)];
      }
      err := 0;
    }

    /** `mcc_map_lookup` (mcc-tree.c:117-133) as written, walking by
        `strcmp`. */
    method LookupAsWritten(key: string) returns (r: Option<string>)
      requires Valid() && NulFree(key)
      ensures r == WalkAsWritten(nodes, root, key)
      ensures r.Some? ==> exists i :: 0 <= i < |nodes| && nodes[i].key == key && nodes[i].value == r.value
    {
      WalkAsWrittenSound(nodes, root, key);
      var node := root;
      while node != Null
        invariant node == Null || 0 <= node < |nodes|
        invariant WalkAsWritten(nodes, node, key) == WalkAsWritten(nodes, root, key)
        decreases if node == Null then 0 else |nodes| - node
      {
        var c := StrCmp(nodes[node].key, key);
        if c == -1 {
          node := nodes[node].left;
        } else if c == 0 {
          return Some(nodes[node].value);
        } else {
          node := nodes[node].right;
        }
      }
      return None;
    }

    /** The lookup walking by insertion's own comparison: it finds the value
        of every key in the map, and nothing else. */
    method Lookup(key: string) returns (r: Option<string>)
      requires Valid() && NulFree(key)
      ensures forall i :: 0 <= i < |nodes| && nodes[i].key == key ==> r == Some(nodes[i].value)
      ensures r.Some? ==> exists i :: 0 <= i < |nodes| && nodes[i].key == key && nodes[i].value == r.value
    {
      var node := root;
      while node != Null
        invariant node == Null || 0 <= node < |nodes|
        invariant forall i :: 0 <= i < |nodes| && nodes[i].key == key ==> node != Null && Descend(nodes, node, key) == Found(i)
        decreases if node == Null then 0 else |nodes| - node
      {
        var c := StrSegCmp(nodes[node].key, key);
        if c == 0 {
          StrSegCmpMeaning(nodes[node].key, key);
          return Some(nodes[node].value);
        }
        node := if c == -1 then nodes[node].left else nodes[node].right;
      }
      return None;
    }

    /** `clear_mcc_map` (mcc-tree.c:135-139): every node is freed and the
        map is empty. */
    method Clear()
      modifies this
      ensures Valid() && nodes == [] && root == Null
    {
      nodes := [];
      root := Null;
    }
  }
}
