// The test runner's re-run loop: a tree of subcases is explored one root-to-leaf path per run of
// the test function, guided only by the path to take next.
module Subcases {
  datatype Signature = Signature(name: string, file: string, line: int)

  type Path = seq<Signature>

  // The subcases a piece of test code declares, in order, with those inside each of them.
  datatype Node = Node(sig: Signature, children: seq<Node>)

  ghost predicate Distinct(forest: seq<Node>) {
    && (forall i, j :: 0 <= i < j < |forest| ==> forest[i].sig != forest[j].sig)
    && (forall i :: 0 <= i < |forest| ==> Distinct(forest[i].children))
  }

  function Prepend(sig: Signature, paths: seq<Path>): (r: seq<Path>)
    ensures |r| == |paths|
  {
    if paths == [] then [] else [[sig] + paths[0]] + Prepend(sig, paths[1..])
  }

  // The root-to-leaf paths, depth first.
  function Leaves(forest: seq<Node>): seq<Path>
    decreases forest
  {
    if forest == [] then []
    else
      var below := if forest[0].children == [] then [[]] else Leaves(forest[0].children);
      Prepend(forest[0].sig, below) + Leaves(forest[1..])
  }

  function Tail(n: Path): Path {
    if n == [] then [] else n[1..]
  }

  predicate Leads(forest: seq<Node>, n: Path)
    requires forest != []
  {
    n == [] || n[0] == forest[0].sig
  }

  // `n` descends along nodes of the forest.
  predicate OnPath(forest: seq<Node>, n: Path): (b: bool)
    ensures b && n != [] ==> forest != []
    decreases forest
  {
    n == [] || (forest != [] &&
                if Leads(forest, n) then OnPath(forest[0].children, n[1..]) else OnPath(forest[1..], n))
  }

  // The leaf reached by following `n` and then always the first child.
  function Chosen(forest: seq<Node>, n: Path): (q: Path)
    requires forest != [] && OnPath(forest, n)
    ensures q != []
    decreases forest
  {
    if Leads(forest, n) then
      [forest[0].sig] + (if forest[0].children == [] then [] else Chosen(forest[0].children, Tail(n)))
    else Chosen(forest[1..], n)
  }

  // The leaves from that one on.
  function Remaining(forest: seq<Node>, n: Path): seq<Path>
    requires forest != [] && OnPath(forest, n)
    decreases forest
  {
    if Leads(forest, n) then
      var below := if forest[0].children == [] then [[]] else Remaining(forest[0].children, Tail(n));
      Prepend(forest[0].sig, below) + Leaves(forest[1..])
    else Remaining(forest[1..], n)
  }

  // The path to take next: to the first sibling after the chosen path, as deep as there is one.
  function Following(forest: seq<Node>, n: Path): Path
    requires forest != [] && OnPath(forest, n)
    decreases forest
  {
    if Leads(forest, n) then
      var below := if forest[0].children == [] then [] else Following(forest[0].children, Tail(n));
      if below != [] then [forest[0].sig] + below
      else if |forest| > 1 then [forest[1].sig]
      else []
    else Following(forest[1..], n)
  }

  // ---- The sequence of runs is the sequence of leaves ----

  lemma {:induction false} RemainingFromStart(forest: seq<Node>)
    requires forest != []
    ensures Remaining(forest, []) == Leaves(forest)
    decreases forest
  {
    if forest[0].children != [] {
      RemainingFromStart(forest[0].children);
    }
  }

  lemma {:induction false} OnPathStarts(forest: seq<Node>, n: Path)
    requires OnPath(forest, n) && n != []
    ensures exists i :: 0 <= i < |forest| && forest[i].sig == n[0]
    decreases forest
  {
    if !Leads(forest, n) {
      OnPathStarts(forest[1..], n);
      var i :| 0 <= i < |forest[1..]| && forest[1..][i].sig == n[0];
      assert forest[i + 1].sig == n[0];
    }
  }

  lemma {:induction false} TailDistinct(forest: seq<Node>)
    requires Distinct(forest) && forest != []
    ensures Distinct(forest[1..]) && Distinct(forest[0].children)
    ensures forall node <- forest[1..] :: node.sig != forest[0].sig
  {
  }

  lemma {:induction false} PrependCons(sig: Signature, path: Path, paths: seq<Path>)
    ensures Prepend(sig, [path] + paths) == [[sig] + path] + Prepend(sig, paths)
  {
    assert ([path] + paths)[1..] == paths;
  }

  ghost predicate TakesOne(forest: seq<Node>, n: Path)
    requires forest != [] && OnPath(forest, n)
  {
    var m := Following(forest, n);
    && OnPath(forest, m)
    && Remaining(forest, n) == [Chosen(forest, n)] + (if m == [] then [] else Remaining(forest, m))
  }

  lemma {:induction false} LeafTakesOne(forest: seq<Node>, n: Path)
    requires forest != [] && OnPath(forest, n) && Distinct(forest) && Leads(forest, n)
    requires forest[0].children == []
    ensures TakesOne(forest, n)
  {
    PrependCons(forest[0].sig, [], []);
    if |forest| > 1 {
      NextSibling(forest);
    }
  }

  lemma {:induction false} NextSibling(forest: seq<Node>)
    requires |forest| > 1 && Distinct(forest)
    ensures OnPath(forest, [forest[1].sig])
    ensures Remaining(forest, [forest[1].sig]) == Leaves(forest[1..])
  {
    var m := [forest[1].sig];
    assert !Leads(forest, m) && forest[1..][0] == forest[1];
    assert Leads(forest[1..], m) && m[1..] == [];
    RemainingFromStart(forest[1..]);
    assert Remaining(forest, m) == Remaining(forest[1..], m) == Remaining(forest[1..], []);
  }

  lemma NoLeaves()
    ensures Leaves([]) == []
  {
  }

  lemma {:induction false} SubtreeEnds(forest: seq<Node>, n: Path)
    requires forest != [] && OnPath(forest, n) && Distinct(forest) && Leads(forest, n)
    requires forest[0].children != [] && TakesOne(forest[0].children, Tail(n))
    requires Following(forest[0].children, Tail(n)) == []
    ensures TakesOne(forest, n)
  {
    hide Leaves, Distinct, Prepend;
    NoLeaves();
    var sig, leaf := forest[0].sig, Chosen(forest[0].children, Tail(n));
    assert Remaining(forest[0].children, Tail(n)) == [leaf];
    PrependOne(sig, leaf);
    assert Remaining(forest, n) == [[sig] + leaf] + Leaves(forest[1..]);
    if |forest| > 1 {
      NextSibling(forest);
    } else {
      assert forest[1..] == [];
    }
  }

  lemma PrependOne(sig: Signature, path: Path)
    ensures Prepend(sig, [path]) == [[sig] + path]
  {
  }

  lemma {:induction false} InFirstTree(forest: seq<Node>, n: Path)
    requires forest != [] && Leads(forest, n) && forest[0].children != []
    ensures OnPath(forest, n) <==> OnPath(forest[0].children, Tail(n))
    ensures OnPath(forest, n) ==>
              var sig, children := forest[0].sig, forest[0].children;
              && Remaining(forest, n) == Prepend(sig, Remaining(children, Tail(n))) + Leaves(forest[1..])
              && Chosen(forest, n) == [sig] + Chosen(children, Tail(n))
              && (Following(children, Tail(n)) != [] ==> Following(forest, n) == [sig] + Following(children, Tail(n)))
  {
  }

  lemma {:induction false} SubtreeGoesOn(forest: seq<Node>, n: Path)
    requires forest != [] && OnPath(forest, n) && Leads(forest, n)
    requires forest[0].children != [] && TakesOne(forest[0].children, Tail(n))
    requires Following(forest[0].children, Tail(n)) != []
    ensures TakesOne(forest, n)
  {
    hide Leaves, Prepend, Remaining, Chosen, Following, OnPath;
    var sig, children := forest[0].sig, forest[0].children;
    InFirstTree(forest, n);
    var leaf, r := Chosen(children, Tail(n)), Following(children, Tail(n));
    var after, m := Remaining(children, r), Following(forest, n);
    assert Leads(forest, m) && Tail(m) == r;
    InFirstTree(forest, m);
    PrependCons(sig, leaf, after);
    assert [[sig] + leaf] + Prepend(sig, after) + Leaves(forest[1..])
        == [[sig] + leaf] + (Prepend(sig, after) + Leaves(forest[1..]));
  }

  // Each run takes the first of the remaining leaves and leaves the rest for the runs after it.
  lemma {:induction false} RunTakesOne(forest: seq<Node>, n: Path)
    requires forest != [] && OnPath(forest, n) && Distinct(forest)
    ensures TakesOne(forest, n)
    decreases forest
  {
    TailDistinct(forest);
    if !Leads(forest, n) {
      RunTakesOne(forest[1..], n);
      if Following(forest, n) != [] {
        OnPathStarts(forest[1..], Following(forest, n));
      }
    } else if forest[0].children == [] {
      LeafTakesOne(forest, n);
    } else {
      RunTakesOne(forest[0].children, Tail(n));
      if Following(forest[0].children, Tail(n)) == [] {
        SubtreeEnds(forest, n);
      } else {
        SubtreeGoesOn(forest, n);
      }
    }
  }

  // ---- The list of leaves is the set of root-to-leaf paths, without repetition ----

  ghost predicate IsLeaf(forest: seq<Node>, p: Path)
    decreases |p|
  {
    p != [] && exists i :: 0 <= i < |forest| && forest[i].sig == p[0] &&
                           if forest[i].children == [] then |p| == 1 else IsLeaf(forest[i].children, p[1..])
  }

  lemma {:induction false} PrependAt(sig: Signature, paths: seq<Path>)
    ensures forall k :: 0 <= k < |paths| ==> Prepend(sig, paths)[k] == [sig] + paths[k]
  {
    if paths != [] {
      PrependAt(sig, paths[1..]);
    }
  }

  lemma {:induction false} IsLeafSplit(forest: seq<Node>, p: Path)
    requires forest != []
    ensures IsLeaf(forest, p) <==>
            || (p != [] && p[0] == forest[0].sig &&
                if forest[0].children == [] then |p| == 1 else IsLeaf(forest[0].children, p[1..]))
            || IsLeaf(forest[1..], p)
  {
    if p != [] {
      assert forall i :: 0 <= i < |forest[1..]| ==> forest[1..][i] == forest[i + 1];
      assert forall i :: 1 <= i < |forest| ==> forest[i] == forest[1..][i - 1];
    }
  }

  lemma {:induction false} PrependMember(sig: Signature, paths: seq<Path>, p: Path)
    ensures p in Prepend(sig, paths) <==> p != [] && p[0] == sig && p[1..] in paths
  {
    if paths != [] {
      PrependMember(sig, paths[1..], p);
      assert p == [sig] + paths[0] <==> p != [] && p[0] == sig && p[1..] == paths[0];
    }
  }

  lemma {:induction false} LeavesExact(forest: seq<Node>, p: Path)
    ensures p in Leaves(forest) <==> IsLeaf(forest, p)
    decreases forest
  {
    if forest != [] {
      var node := forest[0];
      LeavesExact(forest[1..], p);
      IsLeafSplit(forest, p);
      var below: seq<Path> := if node.children == [] then [[]] else Leaves(node.children);
      PrependMember(node.sig, below, p);
      assert Leaves(forest) == Prepend(node.sig, below) + Leaves(forest[1..]);
      if p != [] {
        if node.children != [] {
          LeavesExact(node.children, p[1..]);
        } else {
          assert p[1..] in below <==> p[1..] == [];
        }
      }
    }
  }

  lemma {:induction false} LeavesStart(forest: seq<Node>, p: Path)
    requires p in Leaves(forest)
    ensures p != [] && exists node <- forest :: node.sig == p[0]
  {
    LeavesExact(forest, p);
    var i :| 0 <= i < |forest| && forest[i].sig == p[0];
    assert forest[i] in forest;
  }

  lemma {:induction false} LeavesDiffer(forest: seq<Node>)
    requires Distinct(forest)
    ensures forall i, j :: 0 <= i < j < |Leaves(forest)| ==> Leaves(forest)[i] != Leaves(forest)[j]
    decreases forest
  {
    if forest != [] {
      var node := forest[0];
      var below := if node.children == [] then [[]] else Leaves(node.children);
      TailDistinct(forest);
      LeavesDiffer(forest[1..]);
      LeavesDiffer(node.children);
      PrependAt(node.sig, below);
      var first, rest := Prepend(node.sig, below), Leaves(forest[1..]);
      forall i, j | 0 <= i < j < |first + rest|
        ensures (first + rest)[i] != (first + rest)[j]
      {
        if j < |first| {
          assert first[i][1..] == below[i] && first[j][1..] == below[j];
        } else if i < |first| {
          LeavesStart(forest[1..], rest[j - |first|]);
          assert first[i][0] == node.sig;
        }
      }
    }
  }

  // ---- What the set of traversed paths must leave open ----

  // No path of a node of the forest, seen from `prefix`, has been recorded.
  ghost predicate Unrecorded(forest: seq<Node>, prefix: Path, fully: set<Path>)
    decreases forest
  {
    forall i :: 0 <= i < |forest| ==>
      && prefix + [forest[i].sig] !in fully
      && Unrecorded(forest[i].children, prefix + [forest[i].sig], fully)
  }

  // The same for the part of the forest that is still to come after the path `n`.
  ghost predicate Clear(forest: seq<Node>, n: Path, prefix: Path, fully: set<Path>)
    decreases forest
  {
    forest == [] ||
    if n == [] then Unrecorded(forest, prefix, fully)
    else if Leads(forest, n) then
      && Clear(forest[0].children, n[1..], prefix + [forest[0].sig], fully)
      && Unrecorded(forest[1..], prefix, fully)
    else Clear(forest[1..], n, prefix, fully)
  }

  lemma PrefixStep(prefix: Path, sig: Signature, q: Path)
    ensures prefix + [sig] <= q <==> prefix <= q && |prefix| < |q| && q[|prefix|] == sig
  {
    assert prefix <= q && |prefix| < |q| ==> q[..|prefix| + 1] == prefix + [q[|prefix|]];
  }

  lemma {:induction false} RecordElsewhere(forest: seq<Node>, prefix: Path, fully: set<Path>, q: Path)
    requires Unrecorded(forest, prefix, fully)
    requires !(prefix <= q) || (|prefix| < |q| && forall i :: 0 <= i < |forest| ==> forest[i].sig != q[|prefix|])
    ensures Unrecorded(forest, prefix, fully + {q})
    decreases forest
  {
    forall i | 0 <= i < |forest|
      ensures prefix + [forest[i].sig] != q && Unrecorded(forest[i].children, prefix + [forest[i].sig], fully + {q})
    {
      var deeper := prefix + [forest[i].sig];
      PrefixStep(prefix, forest[i].sig, q);
      RecordElsewhere(forest[i].children, deeper, fully, q);
    }
  }

  lemma {:induction false} NothingRecorded(forest: seq<Node>, prefix: Path)
    ensures Unrecorded(forest, prefix, {})
    decreases forest
  {
    forall i | 0 <= i < |forest|
      ensures Unrecorded(forest[i].children, prefix + [forest[i].sig], {})
    {
      NothingRecorded(forest[i].children, prefix + [forest[i].sig]);
    }
  }

  lemma {:induction false} UnrecordedTail(forest: seq<Node>, prefix: Path, fully: set<Path>)
    requires Unrecorded(forest, prefix, fully) && forest != []
    ensures Unrecorded(forest[1..], prefix, fully)
    ensures prefix + [forest[0].sig] !in fully && Unrecorded(forest[0].children, prefix + [forest[0].sig], fully)
  {
    assert forall i :: 0 <= i < |forest[1..]| ==> forest[1..][i] == forest[i + 1];
  }

  // Both parts of what is clear around the subtree that `n` leads into.
  lemma {:induction false} ClearSplit(forest: seq<Node>, n: Path, prefix: Path, fully: set<Path>)
    requires forest != [] && Clear(forest, n, prefix, fully) && Leads(forest, n)
    ensures Clear(forest[0].children, Tail(n), prefix + [forest[0].sig], fully)
    ensures Unrecorded(forest[1..], prefix, fully)
  {
    if n == [] {
      UnrecordedTail(forest, prefix, fully);
    }
  }

  // Recording the leaf of a run keeps the nodes of the later runs unrecorded.
  lemma {:induction false} ClearAfter(forest: seq<Node>, n: Path, prefix: Path, fully: set<Path>)
    requires forest != [] && OnPath(forest, n) && Distinct(forest) && Clear(forest, n, prefix, fully)
    ensures Clear(forest, Following(forest, n), prefix, fully + {prefix + Chosen(forest, n)})
         || Following(forest, n) == []
    ensures Leads(forest, n) ==> Unrecorded(forest[1..], prefix, fully + {prefix + Chosen(forest, n)})
    decreases forest
  {
    hide Unrecorded, Distinct;
    TailDistinct(forest);
    var q, m := prefix + Chosen(forest, n), Following(forest, n);
    if !Leads(forest, n) {
      ClearAfter(forest[1..], n, prefix, fully);
      RunTakesOne(forest[1..], n);
      if m != [] {
        OnPathStarts(forest[1..], m);
      }
    } else {
      var deeper, children := prefix + [forest[0].sig], forest[0].children;
      ClearSplit(forest, n, prefix, fully);
      assert q[|prefix|] == forest[0].sig;
      RecordElsewhere(forest[1..], prefix, fully, q);
      if children != [] {
        ClearAfter(children, Tail(n), deeper, fully);
        assert deeper + Chosen(children, Tail(n)) == q;
      }
      if m != [] && m[1..] == [] && m[0] != forest[0].sig {
        assert forest[1] == forest[1..][0];
        UnrecordedTail(forest[1..], prefix, fully + {q});
        assert Leads(forest[1..], m) && Clear(forest[1..], m, prefix, fully + {q});
      } else if m != [] {
        assert m[1..] == Following(children, Tail(n));
      }
    }
  }

  // ---- The state of the test context and what a run does to it ----

  // `fully` holds paths in place of their hashes; `starts` lists the subcase_start reports.
  datatype State = State(reachedLeaf: bool, stack: Path, next: Path, fully: set<Path>, depth: nat, starts: Path)

  // The unchecked read of subcaseStack[currentSubcaseDepth] is in bounds.
  predicate InBounds(s: State) {
    s.depth <= |s.stack| && (s.reachedLeaf ==> s.depth < |s.stack|)
  }

  function Entered(s: State, sig: Signature): bool
    requires InBounds(s)
  {
    if !s.reachedLeaf then |s.next| <= |s.stack| || s.next[|s.stack|] == sig
    else s.stack[s.depth] == sig
  }

  // The constructor of Subcase.
  function AfterEnter(s: State, sig: Signature): State
    requires InBounds(s)
  {
    if Entered(s, sig) then
      s.(depth := s.depth + 1, starts := s.starts + [sig],
         stack := if s.reachedLeaf then s.stack else s.stack + [sig])
    else if s.reachedLeaf && |s.next| <= s.depth && s.stack[..s.depth] + [sig] !in s.fully then
      s.(next := s.stack[..s.depth] + [sig])
    else s
  }

  // The destructor of a Subcase that was entered.
  function AfterLeave(s: State): State
    requires s.depth > 0
  {
    var next := if s.reachedLeaf then s.next else [];
    s.(depth := s.depth - 1, next := next, reachedLeaf := true,
       fully := s.fully + if next == [] then {s.stack} else {})
  }

  // A subcase on the path taken, declared again after the leaf was reached, is entered again;
  // entering and leaving it changes nothing but the reports and, when no path is left to take, the
  // record of this one.
  lemma {:induction false} ReentryRunsAgain(s: State, sig: Signature)
    requires s.reachedLeaf && s.depth < |s.stack| && s.stack[s.depth] == sig
    ensures InBounds(s) && Entered(s, sig) && AfterEnter(s, sig).depth == s.depth + 1
    ensures AfterLeave(AfterEnter(s, sig)) ==
            s.(starts := s.starts + [sig], fully := if s.next == [] then s.fully + {s.stack} else s.fully)
  {
  }

  // Another one is not, and is noted for the next run only when none is noted at this depth and its
  // path is not recorded.
  lemma {:induction false} OthersWait(s: State, sig: Signature)
    requires s.reachedLeaf && s.depth < |s.stack| && s.stack[s.depth] != sig
    ensures InBounds(s) && !Entered(s, sig)
    ensures var path := s.stack[..s.depth] + [sig];
            AfterEnter(s, sig) == if |s.next| <= s.depth && path !in s.fully then s.(next := path) else s
  {
  }

  // The part of `next` below the current subcase.
  function Rest(s: State): Path {
    if |s.next| > s.depth then s.next[s.depth..] else []
  }

  // What holds when control reaches the declarations of `forest`.
  ghost predicate Ready(s: State, forest: seq<Node>) {
    && Distinct(forest)
    && InBounds(s)
    && if s.reachedLeaf then
         && (forall node <- forest :: node.sig != s.stack[s.depth])
         && Unrecorded(forest, s.stack[..s.depth], s.fully)
       else
         && s.depth == |s.stack|
         && (Rest(s) != [] ==> s.stack <= s.next)
         && OnPath(forest, Rest(s))
         && Clear(forest, Rest(s), s.stack, s.fully)
  }

  // Running `forest`: before the leaf is reached it is reached now, on the chosen path, and the
  // path of the next run is noted; after it, at most the first subcase is noted for the next run.
  ghost function Effect(s: State, forest: seq<Node>): State
    requires Ready(s, forest)
  {
    if forest == [] then s
    else if s.reachedLeaf then
      if |s.next| <= s.depth then s.(next := s.stack[..s.depth] + [forest[0].sig]) else s
    else Reaching(s, Chosen(forest, Rest(s)), Following(forest, Rest(s)))
  }

  function Reaching(s: State, q: Path, m: Path): State {
    State(true, s.stack + q, if m == [] then [] else s.stack + m, s.fully + {s.stack + q}, s.depth, s.starts + q)
  }

  // The state between the first subcase of `forest` and the others.
  ghost function Between(s: State, forest: seq<Node>): State
    requires Ready(s, forest) && forest != []
  {
    if s.reachedLeaf then Effect(s, forest)
    else if !Leads(forest, Rest(s)) then s
    else
      var sig, children := forest[0].sig, forest[0].children;
      var below := if children == [] then [] else Following(children, Tail(Rest(s)));
      Reaching(s, Chosen(forest, Rest(s)), if below == [] then [] else [sig] + below)
  }

  lemma {:induction false} EnterDescends(s: State, forest: seq<Node>)
    requires Ready(s, forest) && forest != [] && Entered(s, forest[0].sig)
    ensures !s.reachedLeaf && Leads(forest, Rest(s))
    ensures var e := AfterEnter(s, forest[0].sig);
            && Rest(e) == Tail(Rest(s)) && Ready(e, forest[0].children)
            && AfterLeave(Effect(e, forest[0].children)) == Between(s, forest)
  {
    hide Distinct, Unrecorded;
    assert forest[0] in forest;
    TailDistinct(forest);
    ClearSplit(forest, Rest(s), s.stack, s.fully);
    var e := AfterEnter(s, forest[0].sig);
    assert Rest(e) == Tail(Rest(s));
    var children := forest[0].children;
    if children != [] {
      var q, m := Chosen(children, Rest(e)), Following(children, Rest(e));
      assert e.stack + q == s.stack + Chosen(forest, Rest(s));
      assert e.starts + q == s.starts + Chosen(forest, Rest(s));
      assert m != [] ==> e.stack + m == s.stack + ([forest[0].sig] + m);
    } else {
      assert Chosen(forest, Rest(s)) == [forest[0].sig];
    }
  }

  lemma {:induction false} EnterPasses(s: State, forest: seq<Node>)
    requires Ready(s, forest) && forest != [] && !Entered(s, forest[0].sig)
    ensures AfterEnter(s, forest[0].sig) == Between(s, forest)
  {
    if s.reachedLeaf {
      UnrecordedWhenReached(s, forest);
    }
  }

  lemma {:induction false} UnrecordedWhenReached(s: State, forest: seq<Node>)
    requires Ready(s, forest) && forest != [] && s.reachedLeaf
    ensures s.stack[..s.depth] + [forest[0].sig] !in s.fully
    ensures Unrecorded(forest[1..], s.stack[..s.depth], s.fully)
  {
    UnrecordedTail(forest, s.stack[..s.depth], s.fully);
  }

  lemma {:induction false} BetweenIsReady(s: State, forest: seq<Node>)
    requires Ready(s, forest) && forest != []
    ensures Ready(Between(s, forest), forest[1..])
  {
    hide Unrecorded, Distinct;
    TailDistinct(forest);
    if s.reachedLeaf {
      UnrecordedWhenReached(s, forest);
      assert forall node <- forest[1..] :: node in forest;
    } else if Leads(forest, Rest(s)) {
      ClearAfter(forest, Rest(s), s.stack, s.fully);
      var b := Between(s, forest);
      assert b.stack[..b.depth] == s.stack;
      assert b.stack[b.depth] == forest[0].sig;
    }
  }

  lemma {:induction false} EffectInTwoParts(s: State, forest: seq<Node>)
    requires Ready(s, forest) && forest != []
    ensures Ready(Between(s, forest), forest[1..])
    ensures Effect(Between(s, forest), forest[1..]) == Effect(s, forest)
  {
    hide Distinct, Unrecorded, Clear;
    BetweenIsReady(s, forest);
    var b := Between(s, forest);
    if !s.reachedLeaf && Leads(forest, Rest(s)) && |forest| > 1 && b.next == [] {
      assert b.stack[..b.depth] + [forest[1..][0].sig] == s.stack + [forest[1].sig];
    }
  }

  // ---- The subcase part of the test context ----

  class Context {
    var reachedLeaf: bool
    var subcaseStack: Path
    var nextSubcaseStack: Path
    var fullyTraversedSubcases: set<Path>
    var currentSubcaseDepth: nat
    var starts: Path

    constructor ()
      ensures nextSubcaseStack == []
    {
      reachedLeaf, subcaseStack, nextSubcaseStack, fullyTraversedSubcases := false, [], [], {};
      currentSubcaseDepth, starts := 0, [];
    }

    ghost function Now(): State
      reads this
    {
      State(reachedLeaf, subcaseStack, nextSubcaseStack, fullyTraversedSubcases, currentSubcaseDepth, starts)
    }

    method Enter(sig: Signature) returns (entered: bool)
      requires InBounds(Now())
      modifies this`subcaseStack, this`nextSubcaseStack, this`currentSubcaseDepth, this`starts
      ensures entered == Entered(old(Now()), sig) && Now() == AfterEnter(old(Now()), sig)
    {
      entered := false;
      if !reachedLeaf {
        if |nextSubcaseStack| <= |subcaseStack| || nextSubcaseStack[|subcaseStack|] == sig {
          subcaseStack := subcaseStack + [sig];
          currentSubcaseDepth := currentSubcaseDepth + 1;
          entered := true;
          starts := starts + [sig];
        }
      } else if subcaseStack[currentSubcaseDepth] == sig {
        currentSubcaseDepth := currentSubcaseDepth + 1;
        entered := true;
        starts := starts + [sig];
      } else if |nextSubcaseStack| <= currentSubcaseDepth
                && subcaseStack[..currentSubcaseDepth] + [sig] !in fullyTraversedSubcases {
        nextSubcaseStack := [];
        nextSubcaseStack := nextSubcaseStack + subcaseStack[..currentSubcaseDepth];
        nextSubcaseStack := nextSubcaseStack + [sig];
      }
    }

    method Leave()
      requires currentSubcaseDepth > 0
      modifies this`currentSubcaseDepth, this`fullyTraversedSubcases, this`nextSubcaseStack, this`reachedLeaf
      ensures Now() == AfterLeave(old(Now()))
    {
      currentSubcaseDepth := currentSubcaseDepth - 1;
      if !reachedLeaf {
        fullyTraversedSubcases := fullyTraversedSubcases + {subcaseStack};
        nextSubcaseStack := [];
        reachedLeaf := true;
      } else if nextSubcaseStack == [] {
        fullyTraversedSubcases := fullyTraversedSubcases + {subcaseStack};
      }
    }

    // The test code between the braces of a subcase (or of the test case): its subcases in order.
    method Execute(forest: seq<Node>)
      requires Ready(Now(), forest)
      modifies this
      ensures Now() == Effect(old(Now()), forest)
      decreases forest
    {
      if forest != [] {
        hide Ready, Effect, Between, AfterEnter, AfterLeave, Entered;
        EffectInTwoParts(Now(), forest);
        ReadyIsInBounds(Now(), forest);
        ghost var before := Now();
        var entered := Enter(forest[0].sig);
        if entered {
          EnterDescends(before, forest);
          EffectKeepsDepth(Now(), forest[0].children);
          EnteredIsDeeper(before, forest[0].sig);
          Execute(forest[0].children);
          Leave();
        } else {
          EnterPasses(before, forest);
        }
        Execute(forest[1..]);
      }
    }

    // One pass through the test function.
    method RunTest(forest: seq<Node>)
      requires Distinct(forest) && OnPath(forest, nextSubcaseStack)
      requires Clear(forest, nextSubcaseStack, [], fullyTraversedSubcases)
      modifies this
      ensures starts == subcaseStack
      ensures forest == [] ==> subcaseStack == [] && nextSubcaseStack == []
      ensures forest != [] ==>
                && subcaseStack == Chosen(forest, old(nextSubcaseStack))
                && nextSubcaseStack == Following(forest, old(nextSubcaseStack))
                && OnPath(forest, nextSubcaseStack)
                && fullyTraversedSubcases == old(fullyTraversedSubcases) + {subcaseStack}
                && (nextSubcaseStack == [] || Clear(forest, nextSubcaseStack, [], fullyTraversedSubcases))
    {
      hide Distinct, Unrecorded, Clear, Chosen, Following;
      reachedLeaf := false;
      subcaseStack := [];
      currentSubcaseDepth := 0;
      starts := [];
      ghost var n, fully := nextSubcaseStack, fullyTraversedSubcases;
      assert Rest(Now()) == n;
      if forest != [] {
        RunTakesOne(forest, n);
        ClearAfter(forest, n, [], fully);
        assert [] + Chosen(forest, n) == Chosen(forest, n);
        assert [] + Following(forest, n) == Following(forest, n);
      }
      Execute(forest);
    }

    // The runs of one test case; each reports the path it took.
    method RunTestCase(forest: seq<Node>) returns (runs: seq<Path>, reports: seq<Path>)
      requires Distinct(forest) && nextSubcaseStack == []
      modifies this
      ensures runs == if forest == [] then [[]] else Leaves(forest)
      ensures reports == runs
      ensures nextSubcaseStack == []
    {
      hide Distinct, Unrecorded, Leaves, Chosen, Following, Remaining;
      fullyTraversedSubcases := {};
      runs, reports := [], [];
      var runTest := true;
      NothingRecorded(forest, []);
      if forest != [] {
        RemainingFromStart(forest);
      }
      while runTest
        invariant reports == runs
        invariant runTest ==>
                    && OnPath(forest, nextSubcaseStack)
                    && Clear(forest, nextSubcaseStack, [], fullyTraversedSubcases)
                    && if forest == [] then runs == []
                       else runs + Remaining(forest, nextSubcaseStack) == Leaves(forest)
        invariant !runTest ==> nextSubcaseStack == [] && runs == if forest == [] then [[]] else Leaves(forest)
        decreases if runTest then 1 + |Leaves(forest)| - |runs| else 0
      {
        if forest != [] {
          RunTakesOne(forest, nextSubcaseStack);
        }
        RunTest(forest);
        runs := runs + [subcaseStack];
        reports := reports + [starts];
        if nextSubcaseStack == [] {
          runTest := false;
        }
      }
    }
  }

  lemma ReadyIsInBounds(s: State, forest: seq<Node>)
    requires Ready(s, forest)
    ensures InBounds(s)
  {
  }

  lemma EffectKeepsDepth(s: State, forest: seq<Node>)
    requires Ready(s, forest)
    ensures Effect(s, forest).depth == s.depth
  {
  }

  lemma EnteredIsDeeper(s: State, sig: Signature)
    requires InBounds(s) && Entered(s, sig)
    ensures AfterEnter(s, sig).depth == s.depth + 1
  {
  }
}
