/**
 * The process-tree walk of the benchmark: starting at the browser server's
 * pid, follow the "direct children" relation that procfs exposes in
 * `/proc/<pid>/task/<pid>/children`, depth first over an explicit stack,
 * skipping pids already visited.
 *
 * The children files are an abstract map from pid to the file's text; a pid
 * absent from the map is one whose read throws, which the walk swallows
 * (that pid then contributes no children).
 */
module ProcessTree {
  import opened JsText

  type Pid = nat

  /** The text of a children file the model accepts: once trimmed, decimal
      digits separated by spaces (the format procfs writes). */
  predicate ChildrenText(text: string) {
    forall i :: 0 <= i < |Trim(text)| ==> IsDigit(Trim(text)[i]) || Trim(text)[i] == ' '
  }

  /** The children files readable at one instant. */
  type ChildrenFiles = files: map<Pid, string> | forall p :: p in files ==> ChildrenText(files[p])

  /** `.filter(Boolean)` on strings: keeps the non-empty ones, in order. */
  function NonEmpty(parts: seq<string>): (r: seq<string>)
    ensures |r| <= |parts|
    ensures forall k :: 0 <= k < |r| ==> |r[k]| > 0 && r[k] in parts
    ensures (forall k :: 0 <= k < |parts| ==> |parts[k]| > 0) ==> r == parts
    decreases |parts|
  {
    if |parts| == 0 then []
    else if |parts[0]| == 0 then NonEmpty(parts[1..])
    else [parts[0]] + NonEmpty(parts[1..])
  }

  /** `filter` over a concatenation is the concatenation of the filtered parts. */
  lemma {:induction false} NonEmptyAppend(a: seq<string>, b: seq<string>)
    ensures NonEmpty(a + b) == NonEmpty(a) + NonEmpty(b)
    decreases |a|
  {
    if |a| > 0 {
      assert (a + b)[1..] == a[1..] + b;
      NonEmptyAppend(a[1..], b);
    } else {
      assert a + b == b;
    }
  }

  /** A single piece is kept exactly when it is not empty. */
  lemma NonEmptySingle(x: string)
    ensures NonEmpty([x]) == if |x| == 0 then [] else [x]
  {
    assert [x][1..] == [];
  }

  /** Every token of a children text is a digit string. */
  lemma TokensAreDigits(text: string, t: string)
    requires ChildrenText(text)
    requires t in NonEmpty(Split(Trim(text), ' '))
    ensures IsDigits(t)
  {
    var parts := Split(Trim(text), ' ');
    assert t in parts && |t| > 0;
    var k :| 0 <= k < |parts| && parts[k] == t;
    SplitKeepsCharacters(Trim(text), ' ');
    forall i | 0 <= i < |t| ensures IsDigit(t[i]) {
      assert parts[k][i] in Trim(text);
      assert t[i] != ' ';
    }
  }

  /** The pieces of a split are made of characters of the split string. */
  lemma {:induction false} SplitKeepsCharacters(s: string, sep: char)
    ensures forall k, i :: 0 <= k < |Split(s, sep)| && 0 <= i < |Split(s, sep)[k]| ==> Split(s, sep)[k][i] in s
    decreases |s|
  {
    if |s| > 0 {
      SplitKeepsCharacters(s[1..], sep);
      var rest := Split(s[1..], sep);
      forall k, i | 0 <= k < |Split(s, sep)| && 0 <= i < |Split(s, sep)[k]| ensures Split(s, sep)[k][i] in s {
        var c := Split(s, sep)[k][i];
        if s[0] == sep {
          assert k >= 1 && c == rest[k - 1][i];
          assert c in s[1..];
        } else if k == 0 && i == 0 {
          assert c == s[0];
        } else if k == 0 {
          assert c == rest[0][i - 1];
          assert c in s[1..];
        } else {
          assert c == rest[k][i];
          assert c in s[1..];
        }
      }
    }
  }

  /** The pids read from a children file:
      `text.trim().split(' ').filter(Boolean).map(Number)`. */
  function ChildPids(text: string): seq<Pid>
    requires ChildrenText(text)
  {
    var tokens := NonEmpty(Split(Trim(text), ' '));
    seq(|tokens|, k requires 0 <= k < |tokens| =>
      TokensAreDigits(text, tokens[k]);
      DecimalValue(tokens[k]))
  }

  /** What procfs writes: each child pid in decimal, followed by one space. */
  function KernelFormat(pids: seq<Pid>): string
    decreases |pids|
  {
    if |pids| == 0 then "" else Decimal(pids[0]) + " " + KernelFormat(pids[1..])
  }

  /** The decimal strings of `pids`, in order. */
  function Decimals(pids: seq<Pid>): (r: seq<string>)
    ensures |r| == |pids| && forall k :: 0 <= k < |r| ==> r[k] == Decimal(pids[k])
    decreases |pids|
  {
    if |pids| == 0 then [] else [Decimal(pids[0])] + Decimals(pids[1..])
  }

  lemma {:induction false} KernelFormatIsJoin(pids: seq<Pid>)
    requires |pids| > 0
    ensures KernelFormat(pids) == Join(Decimals(pids), ' ') + " "
    decreases |pids|
  {
    if |pids| > 1 {
      KernelFormatIsJoin(pids[1..]);
      assert Decimals(pids)[1..] == Decimals(pids[1..]);
    }
  }

  /** A join of digit strings starts and ends with a digit and holds only digits and spaces. */
  lemma {:induction false} JoinOfDigitStrings(parts: seq<string>)
    requires |parts| > 0 && forall k :: 0 <= k < |parts| ==> IsDigits(parts[k])
    ensures |Join(parts, ' ')| > 0
    ensures IsDigit(Join(parts, ' ')[0]) && IsDigit(Join(parts, ' ')[|Join(parts, ' ')| - 1])
    ensures forall i :: 0 <= i < |Join(parts, ' ')| ==> IsDigit(Join(parts, ' ')[i]) || Join(parts, ' ')[i] == ' '
    decreases |parts|
  {
    if |parts| > 1 {
      JoinOfDigitStrings(parts[1..]);
      var j := Join(parts, ' ');
      var tail := Join(parts[1..], ' ');
      assert j == parts[0] + [' '] + tail;
      forall i | 0 <= i < |j| ensures IsDigit(j[i]) || j[i] == ' ' {
        if i > |parts[0]| {
          assert j[i] == tail[i - |parts[0]| - 1];
        }
      }
    }
  }

  /** Trimming what procfs writes removes exactly the final space. */
  lemma TrimKernelFormat(pids: seq<Pid>)
    requires |pids| > 0
    ensures Trim(KernelFormat(pids)) == Join(Decimals(pids), ' ')
  {
    var j := Join(Decimals(pids), ' ');
    KernelFormatIsJoin(pids);
    JoinOfDigitStrings(Decimals(pids));
    TrimOneTrailingSpace(j);
  }

  /** Parsing what procfs writes gives back the children, in order. */
  lemma ChildPidsRoundTrip(pids: seq<Pid>)
    ensures ChildrenText(KernelFormat(pids))
    ensures ChildPids(KernelFormat(pids)) == pids
  {
    var text := KernelFormat(pids);
    if |pids| == 0 {
      assert Trim(text) == "";
    } else {
      var decs := Decimals(pids);
      TrimKernelFormat(pids);
      JoinOfDigitStrings(decs);
      assert ChildrenText(text);
      SplitJoin(decs, ' ');
      assert NonEmpty(Split(Trim(text), ' ')) == decs;
      var r := ChildPids(text);
      assert |r| == |pids|;
      forall k | 0 <= k < |pids| ensures r[k] == pids[k] {
        DecimalRoundTrip(pids[k]);
      }
    }
  }

  /** A children file holding only whitespace (an exited process's file is empty) yields no pids. */
  lemma ChildPidsOfBlank(text: string)
    requires forall i :: 0 <= i < |text| ==> IsWhitespace(text[i])
    ensures ChildrenText(text) && ChildPids(text) == []
  {
    assert Trim(text) == "";
  }

  /** The direct-children relation the walk follows, as parsed from the files. */
  function ChildrenRelation(files: ChildrenFiles): map<Pid, seq<Pid>>
  {
    map p | p in files :: ChildPids(files[p])
  }

  /** The children files procfs would show for a children relation. */
  function KernelFiles(kids: map<Pid, seq<Pid>>): ChildrenFiles
  {
    assert forall p :: p in kids ==> ChildrenText(KernelFormat(kids[p])) by {
      forall p | p in kids ensures ChildrenText(KernelFormat(kids[p])) {
        ChildPidsRoundTrip(kids[p]);
      }
    }
    map p | p in kids :: KernelFormat(kids[p])
  }

  /** The relation the walk follows is the real children relation: parsing
      the files procfs writes for it gives it back, pid by pid. */
  lemma ChildrenRelationRoundTrip(kids: map<Pid, seq<Pid>>)
    ensures ChildrenRelation(KernelFiles(kids)) == kids
  {
    var files := KernelFiles(kids);
    forall p | p in kids ensures ChildrenRelation(files)[p] == kids[p] {
      ChildPidsRoundTrip(kids[p]);
    }
  }

  /** The children of `pid`: none when its read failed. */
  function ChildrenOf(children: map<Pid, seq<Pid>>, pid: Pid): seq<Pid> {
    if pid in children then children[pid] else []
  }

  ghost predicate ChildOf(children: map<Pid, seq<Pid>>, p: Pid, c: Pid) {
    p in children && c in children[p]
  }

  /** Every pid the walk can ever push: the root and every listed child. */
  function Universe(children: map<Pid, seq<Pid>>, root: Pid): set<Pid>
  {
    {root} + set p, c | p in children && c in children[p] :: c
  }

  /** The pids of `s`, as a set. */
  function Elems(s: seq<Pid>): set<Pid> {
    set x | x in s
  }

  lemma VisitShrinks(u: set<Pid>, visited: seq<Pid>, pid: Pid)
    requires pid in u && pid !in visited
    ensures |u - Elems(visited + [pid])| < |u - Elems(visited)|
  {
    assert u - Elems(visited + [pid]) == (u - Elems(visited)) - {pid};
  }

  /** The walk from a given stack and visited set, exactly as the loop runs it:
      pop the last pid; if visited skip it, else append it to `visited` and
      push its children. It ends once the stack is empty, on any finite
      children map, cyclic ones included. */
  function Walk(children: map<Pid, seq<Pid>>, root: Pid, stack: seq<Pid>, visited: seq<Pid>): seq<Pid>
    requires forall x :: x in stack ==> x in Universe(children, root)
    requires forall x :: x in visited ==> x in Universe(children, root)
    decreases |Universe(children, root) - Elems(visited)|, |stack|
  {
    if |stack| == 0 then visited
    else
      var pid := stack[|stack| - 1];
      var rest := stack[..|stack| - 1];
      if pid in visited then Walk(children, root, rest, visited)
      else
        VisitShrinks(Universe(children, root), visited, pid);
        Walk(children, root, rest + ChildrenOf(children, pid), visited + [pid])
  }

  /** One step of the walk that pops an already visited pid. */
  lemma WalkSkip(children: map<Pid, seq<Pid>>, root: Pid, stack: seq<Pid>, visited: seq<Pid>)
    requires forall x :: x in stack ==> x in Universe(children, root)
    requires forall x :: x in visited ==> x in Universe(children, root)
    requires |stack| > 0 && stack[|stack| - 1] in visited
    ensures Walk(children, root, stack, visited) == Walk(children, root, stack[..|stack| - 1], visited)
  {
  }

  /** One step of the walk that pops an unvisited pid. */
  lemma WalkVisit(children: map<Pid, seq<Pid>>, root: Pid, stack: seq<Pid>, visited: seq<Pid>)
    requires forall x :: x in stack ==> x in Universe(children, root)
    requires forall x :: x in visited ==> x in Universe(children, root)
    requires |stack| > 0 && stack[|stack| - 1] !in visited
    ensures var pid := stack[|stack| - 1];
      (forall x :: x in stack[..|stack| - 1] + ChildrenOf(children, pid) ==> x in Universe(children, root))
      && Walk(children, root, stack, visited)
         == Walk(children, root, stack[..|stack| - 1] + ChildrenOf(children, pid), visited + [pid])
  {
  }

  /** `getProcessTree(root)`: the visited set, in insertion order. */
  function ProcessTree(children: map<Pid, seq<Pid>>, root: Pid): seq<Pid> {
    Walk(children, root, [root], [])
  }

  ghost predicate NoDuplicates(s: seq<Pid>) {
    forall i, j :: 0 <= i < j < |s| ==> s[i] != s[j]
  }

  /** `x` is a child of one of the first `bound` visited pids. */
  ghost predicate HasParent(children: map<Pid, seq<Pid>>, visited: seq<Pid>, bound: nat, x: Pid)
    requires bound <= |visited|
  {
    exists j :: 0 <= j < bound && ChildOf(children, visited[j], x)
  }

  /** What holds of the walk's state at every step. */
  ghost predicate WalkInv(children: map<Pid, seq<Pid>>, root: Pid, stack: seq<Pid>, visited: seq<Pid>) {
    NoDuplicates(visited)
    && (|visited| == 0 ==> stack == [root])
    && (|visited| > 0 ==> visited[0] == root)
    && (forall k :: 0 < k < |visited| ==> HasParent(children, visited, k, visited[k]))
    && (|visited| > 0 ==> forall x :: x in stack ==> HasParent(children, visited, |visited|, x))
    && (forall v, c :: v in visited && ChildOf(children, v, c) ==> c in visited || c in stack)
  }

  lemma HasParentExtend(children: map<Pid, seq<Pid>>, visited: seq<Pid>, pid: Pid, bound: nat, x: Pid)
    requires bound <= |visited| && HasParent(children, visited, bound, x)
    ensures HasParent(children, visited + [pid], bound, x)
  {
    var j :| 0 <= j < bound && ChildOf(children, visited[j], x);
    assert (visited + [pid])[j] == visited[j];
  }

  /** Popping a visited pid keeps the invariant. */
  lemma StepSkip(children: map<Pid, seq<Pid>>, root: Pid, stack: seq<Pid>, visited: seq<Pid>)
    requires WalkInv(children, root, stack, visited)
    requires |stack| > 0 && stack[|stack| - 1] in visited
    ensures WalkInv(children, root, stack[..|stack| - 1], visited)
  {
    var pid := stack[|stack| - 1];
    var rest := stack[..|stack| - 1];
    assert stack == rest + [pid];
    assert |visited| > 0;
    assert forall x :: x in rest ==> HasParent(children, visited, |visited|, x) by {
      forall x | x in rest ensures HasParent(children, visited, |visited|, x) {
        assert x in stack;
      }
    }
    forall v, c | v in visited && ChildOf(children, v, c) ensures c in visited || c in rest {
      assert c in visited || c in stack;
    }
  }

  /** Popping an unvisited pid, visiting it and pushing its children keeps the invariant. */
  lemma StepVisit(children: map<Pid, seq<Pid>>, root: Pid, stack: seq<Pid>, visited: seq<Pid>)
    requires WalkInv(children, root, stack, visited)
    requires |stack| > 0 && stack[|stack| - 1] !in visited
    ensures var pid := stack[|stack| - 1];
      WalkInv(children, root, stack[..|stack| - 1] + ChildrenOf(children, pid), visited + [pid])
  {
    var pid := stack[|stack| - 1];
    var rest := stack[..|stack| - 1];
    assert stack == rest + [pid];
    var visited' := visited + [pid];
    var kids := ChildrenOf(children, pid);
    var stack' := rest + kids;
    assert |visited| == 0 ==> pid == root && rest == [];
    forall k | 0 < k < |visited'| ensures HasParent(children, visited', k, visited'[k]) {
      if k < |visited| {
        HasParentExtend(children, visited, pid, k, visited[k]);
      } else {
        HasParentExtend(children, visited, pid, |visited|, pid);
      }
    }
    forall x | x in stack' ensures HasParent(children, visited', |visited'|, x) {
      if x in rest {
        HasParentExtend(children, visited, pid, |visited|, x);
        var j :| 0 <= j < |visited| && ChildOf(children, visited'[j], x);
      } else {
        assert x in kids && ChildOf(children, visited'[|visited|], x);
      }
    }
    forall v, c | v in visited' && ChildOf(children, v, c) ensures c in visited' || c in stack' {
      if v == pid {
        assert c in kids;
      }
    }
  }

  /** One step of the walk, as a pair (stack, visited). */
  function Step(children: map<Pid, seq<Pid>>, stack: seq<Pid>, visited: seq<Pid>): (seq<Pid>, seq<Pid>)
    requires |stack| > 0
  {
    var pid := stack[|stack| - 1];
    var rest := stack[..|stack| - 1];
    if pid in visited then (rest, visited) else (rest + ChildrenOf(children, pid), visited + [pid])
  }

  /** A step keeps the invariant, appends to `visited`, leaves the walk's result
      unchanged, and makes progress. */
  lemma StepFacts(children: map<Pid, seq<Pid>>, root: Pid, stack: seq<Pid>, visited: seq<Pid>)
    requires forall x :: x in stack ==> x in Universe(children, root)
    requires forall x :: x in visited ==> x in Universe(children, root)
    requires WalkInv(children, root, stack, visited)
    requires |stack| > 0
    ensures forall x :: x in Step(children, stack, visited).0 ==> x in Universe(children, root)
    ensures forall x :: x in Step(children, stack, visited).1 ==> x in Universe(children, root)
    ensures WalkInv(children, root, Step(children, stack, visited).0, Step(children, stack, visited).1)
    ensures Walk(children, root, stack, visited) == Walk(children, root, Step(children, stack, visited).0, Step(children, stack, visited).1)
    ensures |visited| <= |Step(children, stack, visited).1| && Step(children, stack, visited).1[..|visited|] == visited
    ensures |Universe(children, root) - Elems(Step(children, stack, visited).1)| < |Universe(children, root) - Elems(visited)|
      || (Step(children, stack, visited).1 == visited && |Step(children, stack, visited).0| < |stack|)
  {
    var pid := stack[|stack| - 1];
    var rest := stack[..|stack| - 1];
    var next := Step(children, stack, visited);
    if pid in visited {
      assert next == (rest, visited);
      StepSkip(children, root, stack, visited);
      WalkSkip(children, root, stack, visited);
    } else {
      var kids := ChildrenOf(children, pid);
      assert next == (rest + kids, visited + [pid]);
      assert (visited + [pid])[..|visited|] == visited;
      VisitShrinks(Universe(children, root), visited, pid);
      StepVisit(children, root, stack, visited);
      WalkVisit(children, root, stack, visited);
    }
  }

  /** The invariant carries through the walk. */
  lemma {:induction false} WalkKeepsInv(children: map<Pid, seq<Pid>>, root: Pid, stack: seq<Pid>, visited: seq<Pid>)
    requires forall x :: x in stack ==> x in Universe(children, root)
    requires forall x :: x in visited ==> x in Universe(children, root)
    requires WalkInv(children, root, stack, visited)
    ensures WalkInv(children, root, [], Walk(children, root, stack, visited))
    decreases |Universe(children, root) - Elems(visited)|, |stack|
  {
    if |stack| > 0 {
      StepFacts(children, root, stack, visited);
      var next := Step(children, stack, visited);
      WalkKeepsInv(children, root, next.0, next.1);
    }
  }

  lemma PrefixOfPrefix(t: seq<Pid>, a: seq<Pid>, b: seq<Pid>)
    requires |b| <= |a| <= |t| && t[..|a|] == a && a[..|b|] == b
    ensures t[..|b|] == b
  {
    assert t[..|b|] == t[..|a|][..|b|];
  }

  /** The walk only appends to `visited`. */
  lemma {:induction false} WalkExtends(children: map<Pid, seq<Pid>>, root: Pid, stack: seq<Pid>, visited: seq<Pid>)
    requires forall x :: x in stack ==> x in Universe(children, root)
    requires forall x :: x in visited ==> x in Universe(children, root)
    requires WalkInv(children, root, stack, visited)
    ensures |visited| <= |Walk(children, root, stack, visited)|
    ensures Walk(children, root, stack, visited)[..|visited|] == visited
    decreases |Universe(children, root) - Elems(visited)|, |stack|
  {
    if |stack| > 0 {
      StepFacts(children, root, stack, visited);
      var next := Step(children, stack, visited);
      WalkExtends(children, root, next.0, next.1);
      PrefixOfPrefix(Walk(children, root, next.0, next.1), next.1, visited);
    }
  }

  /** The invariant holds of the finished walk started at the root. */
  lemma ProcessTreeInv(children: map<Pid, seq<Pid>>, root: Pid)
    ensures WalkInv(children, root, [], ProcessTree(children, root))
  {
    WalkKeepsInv(children, root, [root], []);
  }

  /** The root is the first pid of the tree (the first pop is the root, and a
      Set iterates in insertion order). */
  lemma ProcessTreeStartsAtRoot(children: map<Pid, seq<Pid>>, root: Pid)
    ensures |ProcessTree(children, root)| > 0 && ProcessTree(children, root)[0] == root
  {
    ProcessTreeInv(children, root);
  }

  /** No pid occurs twice in the tree. */
  lemma ProcessTreeNoDuplicates(children: map<Pid, seq<Pid>>, root: Pid)
    ensures NoDuplicates(ProcessTree(children, root))
  {
    ProcessTreeInv(children, root);
  }

  /** Every child listed for a pid of the tree is in the tree. */
  lemma ProcessTreeClosed(children: map<Pid, seq<Pid>>, root: Pid)
    ensures forall p, c :: p in ProcessTree(children, root) && ChildOf(children, p, c) ==> c in ProcessTree(children, root)
  {
    ProcessTreeInv(children, root);
  }

  /** Every pid after the first was discovered as a child of an earlier pid. */
  lemma ProcessTreeDiscoveryOrder(children: map<Pid, seq<Pid>>, root: Pid)
    ensures var t := ProcessTree(children, root);
      forall k :: 0 < k < |t| ==> exists j :: 0 <= j < k && ChildOf(children, t[j], t[k])
  {
    ProcessTreeInv(children, root);
    var t := ProcessTree(children, root);
    forall k | 0 < k < |t| ensures exists j :: 0 <= j < k && ChildOf(children, t[j], t[k]) {
      assert HasParent(children, t, k, t[k]);
    }
  }

  ghost predicate IsPath(children: map<Pid, seq<Pid>>, path: seq<Pid>) {
    |path| > 0 && forall i :: 0 <= i < |path| - 1 ==> ChildOf(children, path[i], path[i + 1])
  }

  /** `p` is `root` or a transitive child of it. */
  ghost predicate Reachable(children: map<Pid, seq<Pid>>, root: Pid, p: Pid) {
    exists path :: IsPath(children, path) && path[0] == root && path[|path| - 1] == p
  }

  lemma {:induction false} DiscoveredIsReachable(children: map<Pid, seq<Pid>>, root: Pid, t: seq<Pid>, k: nat)
    requires 0 <= k < |t| && t[0] == root
    requires forall i :: 0 < i < |t| ==> HasParent(children, t, i, t[i])
    ensures Reachable(children, root, t[k])
    decreases k
  {
    if k == 0 {
      assert IsPath(children, [root]);
    } else {
      assert HasParent(children, t, k, t[k]);
      var j :| 0 <= j < k && ChildOf(children, t[j], t[k]);
      DiscoveredIsReachable(children, root, t, j);
      var path :| IsPath(children, path) && path[0] == root && path[|path| - 1] == t[j];
      var path' := path + [t[k]];
      assert IsPath(children, path');
    }
  }

  lemma {:induction false} ClosedContainsPath(children: map<Pid, seq<Pid>>, t: seq<Pid>, path: seq<Pid>)
    requires IsPath(children, path) && path[0] in t
    requires forall p, c :: p in t && ChildOf(children, p, c) ==> c in t
    ensures path[|path| - 1] in t
    decreases |path|
  {
    if |path| > 1 {
      var prefix := path[..|path| - 1];
      assert IsPath(children, prefix);
      ClosedContainsPath(children, t, prefix);
      assert ChildOf(children, path[|path| - 2], path[|path| - 1]);
    }
  }

  /** The tree is exactly the set of pids reachable from the root. */
  lemma ProcessTreeReachable(children: map<Pid, seq<Pid>>, root: Pid)
    ensures forall p :: p in ProcessTree(children, root) <==> Reachable(children, root, p)
  {
    ProcessTreeInv(children, root);
    var t := ProcessTree(children, root);
    forall p ensures p in t <==> Reachable(children, root, p) {
      if p in t {
        var k :| 0 <= k < |t| && t[k] == p;
        DiscoveredIsReachable(children, root, t, k);
      }
      if Reachable(children, root, p) {
        var path :| IsPath(children, path) && path[0] == root && path[|path| - 1] == p;
        ClosedContainsPath(children, t, path);
      }
    }
  }

  /** A root without children is the whole tree. */
  lemma ProcessTreeOfLeaf(children: map<Pid, seq<Pid>>, root: Pid)
    requires ChildrenOf(children, root) == []
    ensures ProcessTree(children, root) == [root]
  {
    assert Walk(children, root, [root], []) == Walk(children, root, [], [root]);
  }

  /** When the root's children file cannot be read or holds only whitespace,
      the tree is just the root. */
  lemma ProcessTreeOfChildlessRoot(files: ChildrenFiles, root: Pid)
    requires root in files ==> forall i :: 0 <= i < |files[root]| ==> IsWhitespace(files[root][i])
    ensures ProcessTree(ChildrenRelation(files), root) == [root]
  {
    if root in files {
      ChildPidsOfBlank(files[root]);
    }
    ProcessTreeOfLeaf(ChildrenRelation(files), root);
  }

  /** `getProcessTree(rootPid)`: the loop over an explicit stack with a visited set. */
  method GetProcessTree(files: ChildrenFiles, root: Pid) returns (tree: seq<Pid>)
    ensures tree == ProcessTree(ChildrenRelation(files), root)
  {
    ghost var children := ChildrenRelation(files);
    ghost var u := Universe(children, root);
    var visited: seq<Pid> := [];
    var stack: seq<Pid> := [root];
    while |stack| > 0
      invariant forall x :: x in stack ==> x in u
      invariant forall x :: x in visited ==> x in u
      invariant Walk(children, root, stack, visited) == ProcessTree(children, root)
      decreases |u - Elems(visited)|, |stack|
    {
      ghost var before := stack;
      var pid := stack[|stack| - 1];
      stack := stack[..|stack| - 1];
      if pid in visited {
        WalkSkip(children, root, before, visited);
        continue;
      }
      VisitShrinks(u, visited, pid);
      WalkVisit(children, root, before, visited);
      ghost var next := stack + ChildrenOf(children, pid);
      visited := visited + [pid];
      if pid in files {
        stack := stack + ChildPids(files[pid]);
      }
      assert stack == next;
    }
    tree := visited;
  }
}
