/**
  A trie of weighted genes, and the score of a string: the weights of all occurrences of all genes
  whose index lies in a range.
 */
module Trie {
  import opened Results
  import opened Sums

  // ------------------------------------------------------------------ the score, naively

  // Whether `g` occurs in `d` at position `i`.
  predicate OccursAt(g: string, d: string, i: nat) {
    i + |g| <= |d| && d[i..i + |g|] == g
  }

  // The number of positions below `n` at which `g` occurs in `d`.
  function Occurrences(g: string, d: string, n: nat): nat {
    if n == 0 then 0 else Occurrences(g, d, n - 1) + if OccursAt(g, d, n - 1) then 1 else 0
  }

  // The sum over the first `n` genes with an index in [first, last] of weight times occurrences.
  function NaiveScore(genes: seq<string>, health: seq<int>, n: nat, first: int, last: int, d: string): int
    requires n <= |genes| == |health|
  {
    if n == 0 then 0
    else
      NaiveScore(genes, health, n - 1, first, last, d)
      + if first <= n - 1 <= last then health[n - 1] * Occurrences(genes[n - 1], d, |d|) else 0
  }

  // A gene occurs wherever its text stands in the string, overlapping or not.
  lemma OccurrencesAre(g: string, d: string)
    ensures Occurrences(g, d, |d|) == |set i: int | 0 <= i < |d| && g <= d[i..]|
  {
    var stands := (i: int) => 0 <= i <= |d| && g <= d[i..];
    OccurrencesBelow(g, d, |d|, stands);
    assert Below(|d|, stands) == set i: int | 0 <= i < |d| && g <= d[i..];
  }

  lemma {:induction false} OccurrencesBelow(g: string, d: string, n: nat, stands: int -> bool)
    requires forall i :: stands(i) <==> 0 <= i <= |d| && g <= d[i..]
    ensures Occurrences(g, d, n) == |Below(n, stands)|
  {
    hide OccursAt;
    if n == 0 {
      OneMoreBelow(0, stands);
    } else {
      OccurrencesBelow(g, d, n - 1, stands);
      OccursIsPrefix(g, d, n - 1);
      OneMoreBelow(n - 1, stands);
    }
  }

  lemma OccursIsPrefix(g: string, d: string, i: nat)
    ensures OccursAt(g, d, i) <==> i <= |d| && g <= d[i..]
  {
    if i + |g| <= |d| {
      assert d[i..i + |g|] == d[i..][..|g|];
    }
  }

  // The score of a range of indices is that of its two parts, wherever it is parted.
  lemma {:induction false} ScoreParts(
    genes: seq<string>, health: seq<int>, n: nat, first: int, mid: int, last: int, d: string)
    requires n <= |genes| == |health| && first - 1 <= mid <= last
    ensures NaiveScore(genes, health, n, first, last, d)
         == NaiveScore(genes, health, n, first, mid, d) + NaiveScore(genes, health, n, mid + 1, last, d)
  {
    hide Occurrences;
    if n > 0 {
      ScoreParts(genes, health, n - 1, first, mid, last, d);
    }
  }

  // The score of one index, both ends of the range, is the weight times the number of places at which
  // the gene stands in the string; an index that there is no gene for scores nothing.
  lemma {:induction false} ScoreOfOne(genes: seq<string>, health: seq<int>, n: nat, k: int, d: string)
    requires n <= |genes| == |health|
    ensures NaiveScore(genes, health, n, k, k, d) ==
      if 0 <= k < n
      then health[k] * |set i: int | 0 <= i < |d| && genes[k] <= d[i..]|
      else 0
  {
    hide Occurrences;
    if n > 0 {
      ScoreOfOne(genes, health, n - 1, k, d);
      OccurrencesAre(genes[n - 1], d);
    }
  }

  // ------------------------------------------------------------------ the lists in the nodes

  type Entries = seq<(int, int)>

  // What the node of the word `w` should hold: index and weight of the genes equal to `w`, in order.
  function EntriesOf(genes: seq<string>, health: seq<int>, n: nat, w: string): Entries
    requires n <= |genes| == |health|
  {
    if n == 0 then []
    else EntriesOf(genes, health, n - 1, w) + if genes[n - 1] == w then [(n - 1, health[n - 1])] else []
  }

  ghost predicate IsIncreasing(es: Entries) {
    forall i, j :: 0 <= i < j < |es| ==> es[i].0 < es[j].0
  }

  lemma {:induction false} EntriesIncrease(genes: seq<string>, health: seq<int>, n: nat, w: string)
    requires n <= |genes| == |health|
    ensures IsIncreasing(EntriesOf(genes, health, n, w))
    ensures forall i :: 0 <= i < |EntriesOf(genes, health, n, w)| ==> EntriesOf(genes, health, n, w)[i].0 < n
  {
    if n > 0 {
      EntriesIncrease(genes, health, n - 1, w);
    }
  }

  // The weights of the entries with an index in [first, last].
  function RangeSum(es: Entries, first: int, last: int): int {
    if es == [] then 0
    else
      var e := es[|es| - 1];
      RangeSum(es[..|es| - 1], first, last) + if first <= e.0 <= last then e.1 else 0
  }

  lemma {:induction false} RangeSumStops(es: Entries, k: nat, first: int, last: int)
    requires IsIncreasing(es) && k < |es| && es[k].0 == last
    ensures RangeSum(es, first, last) == RangeSum(es[..k + 1], first, last)
    decreases |es|
  {
    if k + 1 == |es| {
      assert es[..k + 1] == es;
    } else {
      var front := es[..|es| - 1];
      assert front[..k + 1] == es[..k + 1] && front[k] == es[k];
      RangeSumStops(front, k, first, last);
    }
  }

  // ------------------------------------------------------------------ the shape of a trie

  datatype Shape = Shape(health: Entries, kids: map<char, Shape>)

  const LEAF := Shape([], map[])

  // The part of the trie that the word `w` leads to.
  function Reach(s: Shape, w: string): Option<Shape>
    decreases |w|
  {
    if w == "" then Some(s)
    else if w[0] in s.kids then Reach(s.kids[w[0]], w[1..])
    else None
  }

  // What is stored under the word `w`.
  function Look(s: Shape, w: string): Entries {
    match Reach(s, w)
    case None => []
    case Some(r) => r.health
  }

  function Child(s: Shape, c: char): Shape {
    if c in s.kids then s.kids[c] else LEAF
  }

  // `e` filed under `w`, making nodes on the way.
  function Filed(s: Shape, w: string, e: (int, int)): Shape
    decreases |w|
  {
    if w == "" then s.(health := s.health + [e])
    else s.(kids := s.kids[w[0] := Filed(Child(s, w[0]), w[1..], e)])
  }

  lemma {:induction false} LookFiled(s: Shape, w: string, e: (int, int), v: string)
    ensures Look(Filed(s, w, e), v) == if v == w then Look(s, v) + [e] else Look(s, v)
    decreases |w|
  {
    if w != "" && v != "" && v[0] == w[0] {
      assert v == [v[0]] + v[1..] && w == [w[0]] + w[1..];
      LookFiled(Child(s, w[0]), w[1..], e, v[1..]);
    }
  }

  lemma ReachNothing(s: Shape)
    ensures Reach(s, "") == Some(s)
  {
  }

  // A walk goes on from where it is.
  lemma {:induction false} ReachSteps(s: Shape, w: string, c: char)
    ensures var r := Reach(s, w);
            Reach(s, w + [c]) == if r.Some? && c in r.value.kids then Some(r.value.kids[c]) else None
    decreases |w|
  {
    if w != "" {
      assert (w + [c])[1..] == w[1..] + [c];
      if w[0] in s.kids {
        ReachSteps(s.kids[w[0]], w[1..], c);
      }
    }
  }

  // ------------------------------------------------------------------ the score, through the trie

  // The shape after the first `n` genes.
  function Grown(genes: seq<string>, health: seq<int>, n: nat): Shape
    requires n <= |genes| == |health|
  {
    if n == 0 then LEAF else Filed(Grown(genes, health, n - 1), genes[n - 1], (n - 1, health[n - 1]))
  }

  lemma LookLeaf(w: string)
    ensures Look(LEAF, w) == []
  {
  }

  lemma {:induction false} GrownHoldsEntries(genes: seq<string>, health: seq<int>, n: nat, w: string)
    requires n <= |genes| == |health|
    ensures Look(Grown(genes, health, n), w) == EntriesOf(genes, health, n, w)
  {
    hide Look, Reach, Filed;
    if n == 0 {
      assert Look(LEAF, w) == [] by {
        LookLeaf(w);
      }
    } else {
      GrownHoldsEntries(genes, health, n - 1, w);
      LookFiled(Grown(genes, health, n - 1), genes[n - 1], (n - 1, health[n - 1]), w);
    }
  }

  // The weights met on the walk down `d` from `i` to `j`.
  function WalkScore(s: Shape, first: int, last: int, d: string, i: nat, j: nat): int
    requires i <= j <= |d|
  {
    if i == j then 0 else WalkScore(s, first, last, d, i, j - 1) + RangeSum(Look(s, d[i..j]), first, last)
  }

  // The weights met on the full walks from the first `m` positions.
  function WalksScore(s: Shape, first: int, last: int, d: string, m: nat): int
    requires m <= |d|
  {
    if m == 0 then 0 else WalksScore(s, first, last, d, m - 1) + WalkScore(s, first, last, d, m - 1, |d|)
  }

  // A walk that has left the trie meets nothing more.
  lemma {:induction false} WalkEnds(s: Shape, first: int, last: int, d: string, i: nat, j: nat, k: nat)
    requires i <= j <= k <= |d| && Reach(s, d[i..j]) == None
    ensures WalkScore(s, first, last, d, i, k) == WalkScore(s, first, last, d, i, j)
    ensures Reach(s, d[i..k]) == None
  {
    if j < k {
      WalkEnds(s, first, last, d, i, j, k - 1);
      assert d[i..k] == d[i..k - 1] + [d[k - 1]];
      ReachSteps(s, d[i..k - 1], d[k - 1]);
    }
  }

  // Weight of gene `n`, if its index is in the range.
  function Weight(health: seq<int>, n: nat, first: int, last: int): int
    requires n < |health|
  {
    if first <= n <= last then health[n] else 0
  }

  // What one more gene adds to the list of a word.
  lemma EntryGains(genes: seq<string>, health: seq<int>, n: nat, w: string, first: int, last: int)
    requires n < |genes| == |health|
    ensures RangeSum(EntriesOf(genes, health, n + 1, w), first, last)
         == RangeSum(EntriesOf(genes, health, n, w), first, last)
          + if genes[n] == w then Weight(health, n, first, last) else 0
  {
    var e: (int, int), before := (n, health[n]), EntriesOf(genes, health, n, w);
    var after := EntriesOf(genes, health, n + 1, w);
    if genes[n] == w {
      assert after == before + [e];
      assert after[..|after| - 1] == before;
      assert after[|after| - 1] == e;
    } else {
      assert after == before;
    }
  }

  // What one more gene adds to a walk.
  lemma {:induction false} WalkGains(
    genes: seq<string>, health: seq<int>, n: nat, first: int, last: int, d: string, i: nat, j: nat)
    requires n < |genes| == |health| && genes[n] != "" && i <= j <= |d|
    ensures WalkScore(Grown(genes, health, n + 1), first, last, d, i, j)
         == WalkScore(Grown(genes, health, n), first, last, d, i, j)
          + if OccursAt(genes[n], d[..j], i) then Weight(health, n, first, last) else 0
  {
    hide Grown, Look;
    if i < j {
      WalkGains(genes, health, n, first, last, d, i, j - 1);
      var w := d[i..j];
      GrownHoldsEntries(genes, health, n, w);
      GrownHoldsEntries(genes, health, n + 1, w);
      EntryGains(genes, health, n, w, first, last);
      OccursLonger(genes[n], d, i, j);
    }
  }

  // One more character brings one more occurrence exactly if the whole word is it.
  lemma OccursLonger(g: string, d: string, i: nat, j: nat)
    requires i < j <= |d|
    ensures OccursAt(g, d[..j], i) <==> OccursAt(g, d[..j - 1], i) || d[i..j] == g
    ensures !(OccursAt(g, d[..j - 1], i) && d[i..j] == g)
  {
    if i + |g| <= j {
      assert d[..j][i..i + |g|] == d[i..i + |g|];
    }
    if i + |g| <= j - 1 {
      assert d[..j - 1][i..i + |g|] == d[i..i + |g|];
    }
  }

  lemma {:induction false} WalksGain(
    genes: seq<string>, health: seq<int>, n: nat, first: int, last: int, d: string, m: nat)
    requires n < |genes| == |health| && genes[n] != "" && m <= |d|
    ensures WalksScore(Grown(genes, health, n + 1), first, last, d, m)
         == WalksScore(Grown(genes, health, n), first, last, d, m)
          + Weight(health, n, first, last) * Occurrences(genes[n], d, m)
  {
    hide Grown, WalkScore, OccursAt, Weight;
    if m > 0 {
      WalksGain(genes, health, n, first, last, d, m - 1);
      WalkGains(genes, health, n, first, last, d, m - 1, |d|);
      assert d[..|d|] == d;
      var weight, met := Weight(health, n, first, last), Occurrences(genes[n], d, m - 1);
      assert weight * (met + 1) == weight * met + weight;
    }
  }

  lemma {:induction false} NothingFiled(first: int, last: int, d: string, i: nat, j: nat)
    requires i <= j <= |d|
    ensures WalkScore(LEAF, first, last, d, i, j) == 0
  {
    if i < j {
      NothingFiled(first, last, d, i, j - 1);
    }
  }

  lemma {:induction false} NothingMet(first: int, last: int, d: string, m: nat)
    requires m <= |d|
    ensures WalksScore(LEAF, first, last, d, m) == 0
  {
    if m > 0 {
      NothingMet(first, last, d, m - 1);
      NothingFiled(first, last, d, m - 1, |d|);
    }
  }

  // The trie of non-empty genes scores every string, over every range of indices, as a scan for
  // each gene does.
  lemma {:induction false} TrieScoresAsScan(
    genes: seq<string>, health: seq<int>, n: nat, first: int, last: int, d: string)
    requires n <= |genes| == |health| && forall k :: 0 <= k < n ==> genes[k] != ""
    ensures WalksScore(Grown(genes, health, n), first, last, d, |d|)
         == NaiveScore(genes, health, n, first, last, d)
  {
    if n == 0 {
      NothingMet(first, last, d, |d|);
    } else {
      TrieScoresAsScan(genes, health, n - 1, first, last, d);
      WalksGain(genes, health, n - 1, first, last, d, |d|);
    }
  }

  // ------------------------------------------------------------------ the trie

  class Node {
    var children: map<char, Node>
    var health: Entries
    ghost var repr: set<Node>

    // The footprints of the children are disjoint parts of this one's.
    ghost predicate Linked()
      reads this, children.Values
    {
      && this in repr
      && (forall c <- children :: children[c] in children[c].repr && children[c].repr <= repr - {this})
      && (forall b, c :: b in children && c in children && b != c ==> children[b].repr !! children[c].repr)
    }

    ghost predicate Valid()
      reads this, repr
      decreases repr
    {
      && this in repr
      && children.Values <= repr
      && Linked()
      && forall c <- children :: children[c].Valid()
    }

    ghost function Model(): Shape
      requires Valid()
      reads repr
      decreases repr
    {
      Shape(health, map c | c in children :: children[c].Model())
    }

    lemma IsOwn()
      requires Valid()
      ensures this in repr
    {
    }

    lemma Unfold()
      requires Valid()
      ensures Linked() && Model().health == health && Model().kids.Keys == children.Keys
      ensures forall c <- children :: children[c].Valid() && Model().kids[c] == children[c].Model()
    {
    }

    lemma Fold()
      requires Linked() && forall c <- children :: children[c].Valid()
      ensures Valid() && Model().health == health && Model().kids.Keys == children.Keys
      ensures forall c <- children :: Model().kids[c] == children[c].Model()
    {
    }

    constructor ()
      ensures Valid() && fresh(repr) && Model() == LEAF
    {
      children := map[];
      health := [];
      repr := {this};
    }

    // Everything but the child `c` and the footprint is as it should be for a trie of shape `s`.
    ghost predicate Stump(c: char, s: Shape, others: set<Node>)
      reads this, others
    {
      && health == s.health && children.Keys == s.kids.Keys + {c}
      && this !in others
      && forall b <- children :: b != c ==>
        && children[b] in others && children[b] in children[b].repr && children[b].repr <= others
        && children[b].Valid() && children[b].Model() == s.kids[b]
        && forall d <- children :: d != c && d != b ==> children[d] in others && children[b].repr !! children[d].repr
    }

    // Sets the child `c` apart from the rest.
    lemma Cut(c: char)
      requires Valid() && c in children
      ensures Stump(c, Model(), repr - children[c].repr - {this})
      ensures children[c].Valid() && children[c] in children[c].repr
      ensures children[c].repr <= repr - {this} && this in repr
      ensures Model().kids[c] == children[c].Model()
    {
      hide Valid, Model;
      Unfold();
    }

    // Takes the footprint of the child `c`, new or changed, into this one's.
    ghost method Regrow(c: char, s: Shape, others: set<Node>)
      requires c in children && Stump(c, s, others)
      requires children[c].Valid() && children[c].repr !! others && this !in children[c].repr
      modifies this`repr
      ensures Valid() && repr == {this} + others + children[c].repr
      ensures Model() == s.(kids := s.kids[c := children[c].Model()])
    {
      hide Valid, Model;
      children[c].IsOwn();
      ghost var link := children[c].Model();
      repr := {this} + others + children[c].repr;
      assert children[c].Valid() && children[c].Model() == link;
      assert forall b <- children :: b != c ==> children[b].Valid() && children[b].Model() == s.kids[b];
      Fold();
      assert Model().kids == s.kids[c := link];
    }

    method AddChild(c: char) returns (child: Node)
      requires Valid()
      modifies this
      ensures Valid() && c in children && child == children[c] && child.Valid() && fresh(repr - old(repr))
      ensures child.Model() == Child(old(Model()), c)
      ensures Model() == old(Model()).(kids := old(Model()).kids[c := child.Model()])
    {
      hide Valid, Model;
      Unfold();
      ghost var before := Model();
      if c !in children {
        child := new Node();
        children := children[c := child];
        Regrow(c, before, repr - {this});
      } else {
        child := children[c];
        assert before.kids == before.kids[c := child.Model()];
      }
    }

    // Files `(idx, score)` under the rest of `gene` from `pos`.
    method AddWord(gene: string, pos: nat, score: int, idx: int)
      requires Valid() && pos < |gene|
      modifies repr
      ensures Valid() && fresh(repr - old(repr))
      ensures Model() == Filed(old(Model()), gene[pos..], (idx, score))
      decreases |gene| - pos
    {
      hide Valid, Model, Stump;
      IsOwn();
      var key := gene[pos];
      var child := AddChild(key);
      Cut(key);
      ghost var here, others := Model(), repr - child.repr - {this};
      if |gene| - pos == 1 {
        child.Append(idx, score);
        assert gene[pos + 1..] == "";
      } else {
        child.AddWord(gene, pos + 1, score, idx);
      }
      Regrow(key, here, others);
      assert gene[pos..] == [key] + gene[pos + 1..];
    }

    method Append(idx: int, score: int)
      requires Valid()
      modifies this`health
      ensures Valid() && Model() == Filed(old(Model()), "", (idx, score))
    {
      hide Valid, Model;
      ghost var before := Model();
      Unfold();
      health := health + [(idx, score)];
      Fold();
      assert Model().kids == before.kids;
    }

    // The node's own score: the loop stops at index `last`.
    method OwnScore(first: int, last: int) returns (score: int)
      requires IsIncreasing(health)
      ensures score == RangeSum(health, first, last)
    {
      score := 0;
      for k := 0 to |health|
        invariant score == RangeSum(health[..k], first, last)
      {
        var (idx, weight) := health[k];
        assert health[..k + 1][..k] == health[..k];
        if idx >= first && idx <= last {
          score := score + weight;
        }
        if idx == last {
          RangeSumStops(health, k, first, last);
          return;
        }
      }
      assert health[..|health|] == health;
    }

    // The score of the string `d`, walking down from each of its positions.
    method Score(first: int, last: int, d: string) returns (score: int)
      requires Valid() && forall w :: IsIncreasing(Look(Model(), w))
      ensures score == WalksScore(Model(), first, last, d, |d|)
    {
      hide Valid, Model, IsIncreasing, Reach;
      score := 0;
      for i := 0 to |d|
        invariant score == WalksScore(Model(), first, last, d, i)
      {
        var walk := WalkFrom(first, last, d, i);
        score := score + walk;
      }
    }

    method WalkFrom(first: int, last: int, d: string, i: nat) returns (score: int)
      requires Valid() && forall w :: IsIncreasing(Look(Model(), w))
      requires i <= |d|
      ensures score == WalkScore(Model(), first, last, d, i, |d|)
    {
      hide Valid, Model, IsIncreasing, Reach;
      score := 0;
      var node: Node? := this;
      var j := i;
      assert d[i..j] == "";
      ReachNothing(Model());
      while node != null && j < |d|
        invariant i <= j <= |d|
        invariant score == WalkScore(Model(), first, last, d, i, j)
        invariant node == null ==> Reach(Model(), d[i..j]) == None
        invariant node != null ==> node.Valid() && Reach(Model(), d[i..j]) == Some(node.Model())
      {
        assert d[i..j + 1] == d[i..j] + [d[j]];
        ReachSteps(Model(), d[i..j], d[j]);
        node.Unfold();
        node := if d[j] in node.children then node.children[d[j]] else null;
        if node != null {
          node.Unfold();
          assert IsIncreasing(Look(Model(), d[i..j + 1]));
          var own := node.OwnScore(first, last);
          score := score + own;
        }
        j := j + 1;
      }
      if node == null {
        WalkEnds(Model(), first, last, d, i, j, |d|);
      }
    }
  }

  // The trie of all the genes.
  method CreateNode(genes: seq<string>, health: seq<int>) returns (root: Node)
    requires |genes| == |health| && forall k :: 0 <= k < |genes| ==> genes[k] != ""
    ensures root.Valid() && fresh(root.repr) && root.Model() == Grown(genes, health, |genes|)
  {
    hide Node.Valid, Node.Model;
    root := new Node();
    for i := 0 to |genes|
      invariant root.Valid() && fresh(root.repr) && root.Model() == Grown(genes, health, i)
    {
      assert genes[i][0..] == genes[i];
      root.AddWord(genes[i], 0, health[i], i);
    }
  }

  // Building the trie and asking it for a score gives what the scan gives.
  method ScoreOf(genes: seq<string>, health: seq<int>, first: int, last: int, d: string) returns (score: int)
    requires |genes| == |health| && forall k :: 0 <= k < |genes| ==> genes[k] != ""
    ensures score == NaiveScore(genes, health, |genes|, first, last, d)
  {
    var root := CreateNode(genes, health);
    forall w ensures IsIncreasing(Look(root.Model(), w)) {
      GrownHoldsEntries(genes, health, |genes|, w);
      EntriesIncrease(genes, health, |genes|, w);
    }
    score := root.Score(first, last, d);
    TrieScoresAsScan(genes, health, |genes|, first, last, d);
  }
}
