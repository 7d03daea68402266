/** The digit-indexed trie: a tree of mutable nodes that refines a map from digit sequences to values. */
module NumTrie {
  import opened Wrappers

  type Digit = d: nat | d < 10

  const STATUS_EMPTY := -127
  const STATUS_NO := -125
  const STATUS_PREFIX_BIT := 2
  const STATUS_PARTIAL_BIT := 1

  /** The ITU E.161 keypad digit of a character. */
  function KeypadDigit(c: char): Option<Digit> {
    var u := if 'a' <= c <= 'z' then (c as int - 'a' as int + 'A' as int) as char else c;
    if '0' <= u <= '9' then Some(u as int - '0' as int)
    else if 'A' <= u <= 'C' then Some(2)
    else if 'D' <= u <= 'F' then Some(3)
    else if 'G' <= u <= 'I' then Some(4)
    else if 'J' <= u <= 'L' then Some(5)
    else if 'M' <= u <= 'O' then Some(6)
    else if 'P' <= u <= 'S' then Some(7)
    else if 'T' <= u <= 'V' then Some(8)
    else if 'W' <= u <= 'Z' then Some(9)
    else None
  }

  /** The key a string denotes: its keypad digits, everything else skipped. */
  function Digits(num: string): seq<Digit>
    decreases |num|
  {
    if num == "" then []
    else
      var init := Digits(num[..|num| - 1]);
      match KeypadDigit(num[|num| - 1])
      case None => init
      case Some(d) => init + [d]
  }

  lemma DigitsStep(num: string, j: nat)
    requires j < |num|
    ensures Digits(num[..j + 1]) == match KeypadDigit(num[j])
                                    case None => Digits(num[..j])
                                    case Some(d) => Digits(num[..j]) + [d]
  {
    assert num[..j + 1][..j] == num[..j];
  }

  lemma {:induction false} DigitsPrefix(num: string, j: nat)
    requires j <= |num|
    ensures Digits(num[..j]) <= Digits(num)
    decreases |num| - j
  {
    if j == |num| {
      assert num[..j] == num;
    } else {
      DigitsStep(num, j);
      DigitsPrefix(num, j + 1);
    }
  }

  // ---------------------------------------------------------------- lookups on a plain map

  /** Some stored key continues this path. */
  ghost predicate Reaches<V>(stored: map<seq<Digit>, V>, path: seq<Digit>) {
    exists k :: k in stored && path <= k
  }

  /** Some stored key strictly extends this path. */
  ghost predicate Extends<V>(stored: map<seq<Digit>, V>, path: seq<Digit>) {
    exists k :: k in stored && path < k
  }

  /** The length of the longest prefix of n digits that some stored key continues; 0 when none does. */
  ghost function MatchLength<V>(stored: map<seq<Digit>, V>, digits: seq<Digit>, n: nat): (m: nat)
    requires n <= |digits|
    ensures m <= n
  {
    if n == 0 then 0
    else if Reaches(stored, digits[..n]) then n
    else MatchLength(stored, digits, n - 1)
  }

  /** The value of the longest stored key among the first n digits' prefixes. */
  function LongestStored<V>(stored: map<seq<Digit>, V>, digits: seq<Digit>, n: nat): Option<V>
    requires n <= |digits|
  {
    if digits[..n] in stored then Some(stored[digits[..n]])
    else if n == 0 then None
    else LongestStored(stored, digits, n - 1)
  }

  ghost function Lookup<V>(stored: map<seq<Digit>, V>, digits: seq<Digit>): (r: (Option<V>, int)) {
    var m := MatchLength(stored, digits, |digits|);
    if m == 0 then (None, if digits == [] then STATUS_EMPTY else STATUS_NO)
    else (LongestStored(stored, digits, |digits|),
          (if m < |digits| then STATUS_PREFIX_BIT else 0)
          + (if Extends(stored, digits[..m]) then STATUS_PARTIAL_BIT else 0))
  }

  lemma ReachIsMonotone<V>(stored: map<seq<Digit>, V>, digits: seq<Digit>, m: nat, n: nat)
    requires m <= n <= |digits| && Reaches(stored, digits[..n])
    ensures Reaches(stored, digits[..m])
  {
    var k :| k in stored && digits[..n] <= k;
    assert digits[..m] <= k;
  }

  /** The first position no stored key continues determines the match length. */
  lemma {:induction false} MatchLengthIs<V>(stored: map<seq<Digit>, V>, digits: seq<Digit>, m: nat, n: nat)
    requires m <= n <= |digits|
    requires m == 0 || Reaches(stored, digits[..m])
    requires m == n || !Reaches(stored, digits[..m + 1])
    ensures MatchLength(stored, digits, n) == m
    decreases n
  {
    if m < n {
      if Reaches(stored, digits[..n]) {
        ReachIsMonotone(stored, digits, m + 1, n);
      }
      MatchLengthIs(stored, digits, m, n - 1);
    }
  }

  /** No key longer than the match is stored, so the longest stored prefix lies within it. */
  lemma {:induction false} StoredWithinMatch<V>(stored: map<seq<Digit>, V>, digits: seq<Digit>, m: nat, n: nat)
    requires m <= n <= |digits|
    requires m == n || !Reaches(stored, digits[..m + 1])
    ensures LongestStored(stored, digits, n) == LongestStored(stored, digits, m)
    decreases n
  {
    if m < n {
      if digits[..n] in stored {
        assert Reaches(stored, digits[..n]);
        ReachIsMonotone(stored, digits, m + 1, n);
      }
      StoredWithinMatch(stored, digits, m, n - 1);
    }
  }

  /** The stored value is that of a stored prefix, and no longer prefix is stored. */
  lemma {:induction false} LongestStoredIsLongest<V>(stored: map<seq<Digit>, V>, digits: seq<Digit>, n: nat)
    requires n <= |digits|
    ensures match LongestStored(stored, digits, n)
            case None => forall i :: 0 <= i <= n ==> digits[..i] !in stored
            case Some(v) => exists i :: (0 <= i <= n && digits[..i] in stored && v == stored[digits[..i]]
                                         && forall j :: i < j <= n ==> digits[..j] !in stored)
  {
    if digits[..n] !in stored && n > 0 {
      LongestStoredIsLongest(stored, digits, n - 1);
    }
  }

  /** When a caller can rely on a value: at a leaf always, below the first digit's failure never. */
  lemma LeafStatusCarriesValue<V>(stored: map<seq<Digit>, V>, digits: seq<Digit>)
    ensures var (v, status) := Lookup(stored, digits);
            && (status in {0, STATUS_PREFIX_BIT} ==> v.Some?)
            && (status < 0 ==> v.None?)
            && (status < 0 <==> digits == [] || !Reaches(stored, digits[..1]))
  {
    var m := MatchLength(stored, digits, |digits|);
    MatchLengthReaches(stored, digits, |digits|);
    if digits != [] && Reaches(stored, digits[..1]) {
      MatchLengthPositive(stored, digits, |digits|);
    }
    if m > 0 {
      ReachIsMonotone(stored, digits, 1, m);
      StoredWithinMatch(stored, digits, m, |digits|);
      if !Extends(stored, digits[..m]) {
        var k :| k in stored && digits[..m] <= k;
        assert k == digits[..m];
      }
    }
  }

  lemma {:induction false} MatchLengthReaches<V>(stored: map<seq<Digit>, V>, digits: seq<Digit>, n: nat)
    requires n <= |digits|
    ensures var m := MatchLength(stored, digits, n);
            (m > 0 ==> Reaches(stored, digits[..m])) && (m < n ==> !Reaches(stored, digits[..m + 1]))
  {
    if n > 0 && !Reaches(stored, digits[..n]) {
      MatchLengthReaches(stored, digits, n - 1);
    }
  }

  lemma {:induction false} MatchLengthPositive<V>(stored: map<seq<Digit>, V>, digits: seq<Digit>, n: nat)
    requires 1 <= n <= |digits| && Reaches(stored, digits[..1])
    ensures MatchLength(stored, digits, n) >= 1
  {
    if n > 1 && !Reaches(stored, digits[..n]) {
      MatchLengthPositive(stored, digits, n - 1);
    }
  }

  // ---------------------------------------------------------------- the trie

  /** A trie node. The ten child slots are part of the node itself, hence a sequence field updated in
      place. The first three ghost fields are kept on a root: the map the trie stands for, the node at the
      end of every path, and all its nodes. */
  class Node<V(!new)> {
    var value: Option<V>
    var numChildren: int
    var children: seq<Node?<V>>
    ghost var contents: map<seq<Digit>, V>
    ghost var index: map<seq<Digit>, Node<V>>
    ghost var nodes: set<Node<V>>
    ghost const place: seq<Digit>  // the path that leads to this node

    constructor (ghost place: seq<Digit> := [])
      ensures this.place == place
      ensures children == seq(10, _ => null) && value.None? && numChildren == 0
      ensures place == [] ==> Valid() && contents == map[] && nodes == {this}
    {
      this.place := place;
      value := None;
      numChildren := 0;
      children := seq(10, _ => null);
      new;
      contents, index, nodes := map[], map[[] := this], {this};
      LeadsNowhere(index, []);
    }

    /** The digits with a child in the given slots. */
    static ghost function Occupied(slots: seq<Node?<V>>): set<nat> {
      set d: nat | d < |slots| && slots[d] != null
    }

    /** These child slots lead from p to the nodes at p + [d], and the count is theirs. */
    static ghost predicate LeadsOn(index: map<seq<Digit>, Node<V>>, p: seq<Digit>, slots: seq<Node?<V>>, count: int) {
      && |slots| == 10 && count == |Occupied(slots)|
      && (forall d: Digit {:trigger slots[d]} :: slots[d] == if p + [d] in index then index[p + [d]] else null)
    }

    /** The node at p holds what is stored at p and leads on to its children. */
    ghost predicate Placed(p: seq<Digit>, n: Node<V>)
      reads this, n
    {
      && n in nodes && n.place == p
      && n.value == (if p in contents then Some(contents[p]) else None)
      && LeadsOn(index, p, n.children, n.numChildren)
    }

    /** The nodes form a tree rooted here. */
    ghost predicate Linked()
      reads this, nodes
    {
      && [] in index && index[[]] == this
      && contents.Keys <= index.Keys
      && (forall p :: p in index ==> index[p] in nodes)
      && (forall p {:trigger Placed(p, index[p])} :: p in index ==> Placed(p, index[p]))
      && (forall p: seq<Digit>, d: Digit {:trigger p + [d]} :: p + [d] in index ==> p in index)
    }

    /** Every node but the root lies on the way to a stored value. */
    ghost predicate Valid()
      reads this, nodes
    {
      && Linked()
      && (forall p {:trigger Reaches(contents, p)} :: p in index && p != [] ==> Reaches(contents, p))
    }

    lemma {:induction false} PrefixIndexed(p: seq<Digit>, n: nat)
      requires Linked() && p in index && n <= |p|
      ensures p[..n] in index
      decreases |p| - n
    {
      if n < |p| {
        PrefixIndexed(p, n + 1);
        assert p[..n + 1] == p[..n] + [p[n]];
      } else {
        assert p[..n] == p;
      }
    }

    /** A path exists in the trie exactly when some stored key continues it. */
    lemma IndexedIffReached(p: seq<Digit>)
      requires Valid()
      ensures p != [] ==> (p in index <==> Reaches(contents, p))
      ensures p in index ==> (index[p].numChildren > 0 <==> Extends(contents, p))
    {
      if Reaches(contents, p) {
        var k :| k in contents && p <= k;
        PrefixIndexed(k, |p|);
        assert k[..|p|] == p;
      }
      if p in index {
        assert Placed(p, index[p]);
        if index[p].numChildren > 0 {
          var d :| d in Occupied(index[p].children);
          var e: Digit := d;
          assert index[p].children[e] != null && p + [e] in index;
          assert Reaches(contents, p + [e]);
          var k :| k in contents && p + [e] <= k;
          assert p < k;
        }
        if Extends(contents, p) {
          var k :| k in contents && p < k;
          PrefixIndexed(k, |p| + 1);
          assert k[..|p| + 1] == p + [k[|p|]];
          assert index[p].children[k[|p|]] != null && k[|p|] in Occupied(index[p].children);
        }
      }
    }

    /** Putting a node in a free slot of the node at path: what each node's slots lead to afterwards. */
    static lemma LeadsOnAfter(index: map<seq<Digit>, Node<V>>, path: seq<Digit>, i: Digit, child: Node<V>,
                              p: seq<Digit>, slots: seq<Node?<V>>, count: int)
      requires LeadsOn(index, p, slots, count) && path + [i] !in index
      ensures p != path ==> LeadsOn(index[path + [i] := child], p, slots, count)
      ensures p == path ==> LeadsOn(index[path + [i] := child], p, slots[i := child], count + 1)
    {
      SnocCases(p, path, i);
      if p == path {
        assert slots[i] == null;
        assert Occupied(slots[i := child]) == Occupied(slots) + {i as nat};
        forall d: Digit
          ensures slots[i := child][d] == if p + [d] in index[path + [i] := child] then index[path + [i] := child][p + [d]] else null
        {
          assert d != i ==> slots[i := child][d] == slots[d];
        }
      }
    }

    static lemma LeadsNowhere(index: map<seq<Digit>, Node<V>>, p: seq<Digit>)
      requires forall d: Digit :: p + [d] !in index
      ensures LeadsOn(index, p, seq(10, _ => null), 0)
    {
      var none: seq<Node?<V>> := seq(10, _ => null);
      assert Occupied(none) == {};
    }

    /** Links an empty node under the node at the given path. */
    method Attach(node: Node<V>, ghost path: seq<Digit>, i: Digit, child: Node<V>)
      requires Linked() && path in index && index[path] == node && path + [i] !in index
      requires child !in nodes && child != this && child.place == path + [i]
      requires child.children == seq(10, _ => null) && child.value.None? && child.numChildren == 0
      modifies this, node
      ensures contents == old(contents) && nodes == old(nodes) + {child} && index == old(index)[path + [i] := child]
      ensures Linked()
    {
      assert Placed(path, node);
      node.children := node.children[i := child];
      node.numChildren := node.numChildren + 1;
      index := index[path + [i] := child];
      nodes := nodes + {child};
      forall p: seq<Digit>, d: Digit | p + [d] in index
        ensures p in index
      {
        SnocCases(p, path, i);
      }
      forall p {:trigger Placed(p, index[p])} | p in index
        ensures Placed(p, index[p])
      {
        if p == path + [i] {
          assert forall d: Digit :: p + [d] in index ==> |p + [d]| == |p| + 1;
          LeadsNowhere(index, p);
        } else {
          assert old(Placed(p, index[p]));
          LeadsOnAfter(old(index), path, i, child, p, old(index[p].children), old(index[p].numChildren));
        }
      }
    }

    static lemma SnocCases(p: seq<Digit>, path: seq<Digit>, i: Digit)
      ensures forall d: Digit :: p + [d] == path + [i] ==> p == path && d == i
    {
      forall d: Digit | p + [d] == path + [i]
        ensures p == path && d == i
      {
        assert (p + [d])[..|p|] == p && (path + [i])[..|path|] == path;
      }
    }

    /** Stores a value at the node on the given path, the only way the trie may still need one. */
    method Store(node: Node<V>, ghost path: seq<Digit>, v: V)
      requires Linked() && path in index && index[path] == node
      requires forall p {:trigger Reaches(contents, p)} :: p in index && p != [] ==> p <= path || Reaches(contents, p)
      modifies this, node
      ensures Valid() && nodes == old(nodes) && contents == old(contents)[path := v]
    {
      ghost var before := contents;
      node.value := Some(v);
      contents := contents[path := v];
      forall p {:trigger Placed(p, index[p])} | p in index
        ensures Placed(p, index[p])
      {
        assert old(Placed(p, index[p]) && Placed(path, node));
      }
      forall p {:trigger Reaches(contents, p)} | p in index && p != []
        ensures Reaches(contents, p)
      {
        if p <= path {
          assert path in contents;
        } else {
          assert Reaches(before, p);
          var k :| k in before && p <= k;
          assert k in contents;
        }
      }
    }

    /** Stores a value under the digits of num, reporting whether the key is new; no value, no change. */
    method Add(num: string, val: Option<V>) returns (isNew: bool)
      requires Valid()
      modifies this, nodes
      ensures Valid() && fresh(nodes - old(nodes))
      ensures val.None? ==> !isNew && contents == old(contents)
      ensures val.Some? ==> contents == old(contents)[Digits(num) := val.value]
      ensures val.Some? ==> (isNew <==> Digits(num) !in old(contents))
    {
      if val.None? {
        return false;
      }
      var node := this;
      ghost var path: seq<Digit> := [];
      for j := 0 to |num|
        invariant Linked() && contents == old(contents)
        invariant path == Digits(num[..j]) && path in index && index[path] == node
        invariant forall p {:trigger Reaches(contents, p)} ::
          p in index && p != [] ==> p <= path || Reaches(contents, p)
        invariant fresh(nodes - old(nodes))
      {
        DigitsStep(num, j);
        match KeypadDigit(num[j]) {
          case None =>
          case Some(i) =>
            assert Placed(path, node);
            if node.children[i] == null {
              var child := new Node<V>(path + [i]);
              Attach(node, path, i, child);
              assert Placed(path, node);
            }
            path := path + [i];
            node := node.children[i];
        }
      }
      assert num[..|num|] == num;
      assert Placed(path, node);
      isNew := node.value.None?;
      Store(node, path, val.value);
    }

    /** The longest-prefix match of num and its status. */
    method Get(num: string) returns (val: Option<V>, status: int)
      requires Valid()
      ensures (val, status) == Lookup(contents, Digits(num))
    {
      ghost var digits := Digits(num);
      var matched, digit := 0, 0;
      var node := this;
      assert Placed([], this);
      val := value;
      ghost var path: seq<Digit> := [];
      var j := 0;
      while j < |num|
        invariant 0 <= j <= |num|
        invariant path == Digits(num[..j]) <= digits && matched == digit == |path|
        invariant path in index && node == index[path]
        invariant val == LongestStored(contents, digits, matched)
      {
        DigitsStep(num, j);
        DigitsPrefix(num, j + 1);
        assert Placed(path, node);
        match KeypadDigit(num[j]) {
          case None =>
          case Some(i) =>
            digit := digit + 1;
            assert digits[..digit] == path + [i];
            if node.children[i] == null {
              break;
            }
            node := node.children[i];
            path := path + [i];
            assert Placed(path, node);
            if node.value.Some? {
              val := node.value;
            }
            matched := matched + 1;
        }
        j := j + 1;
      }
      assert num[..|num|] == num;
      MatchEndsAt(path, digits);
      status := node.MatchStatus(matched, digit);
      if matched == 0 {
        val := None;
      }
    }

    /** Where a walk along some digits ends tells the whole lookup. */
    lemma {:induction false} MatchEndsAt(path: seq<Digit>, digits: seq<Digit>)
      requires Valid() && path in index && path <= digits
      requires path == digits || digits[..|path| + 1] !in index
      ensures LongestStored(contents, digits, |digits|) == LongestStored(contents, digits, |path|)
      ensures MatchLength(contents, digits, |digits|) == |path|
      ensures index[path].numChildren > 0 <==> Extends(contents, digits[..|path|])
    {
      assert digits[..|path|] == path;
      IndexedIffReached(path);
      if path != digits { IndexedIffReached(digits[..|path| + 1]); }
      MatchLengthIs(contents, digits, |path|, |digits|);
      StoredWithinMatch(contents, digits, |path|, |digits|);
    }

    /** The status of a traversal that ended on this node after so many matched digits. */
    function MatchStatus(matched: nat, digit: nat): int
      reads this
    {
      if matched == 0 then
        if digit == 0 then STATUS_EMPTY else STATUS_NO
      else
        (if digit > matched then STATUS_PREFIX_BIT else 0) + (if numChildren > 0 then STATUS_PARTIAL_BIT else 0)
    }

    /** The value stored at exactly the digits of num. */
    method GetExact(num: string) returns (val: Option<V>)
      requires Valid()
      ensures val == if Digits(num) in contents then Some(contents[Digits(num)]) else None
    {
      var node := this;
      ghost var path: seq<Digit> := [];
      for j := 0 to |num|
        invariant path == Digits(num[..j]) && path in index && node == index[path]
      {
        DigitsStep(num, j);
        assert Placed(path, node);
        match KeypadDigit(num[j]) {
          case None =>
          case Some(i) =>
            path := path + [i];
            if node.children[i] == null {
              DigitsPrefix(num, j + 1);
              if Digits(num) in contents {
                PrefixOfStored(path, Digits(num));
              }
              return None;
            }
            node := node.children[i];
        }
      }
      assert num[..|num|] == num;
      assert Placed(path, node);
      return node.value;
    }

    lemma PrefixOfStored(path: seq<Digit>, digits: seq<Digit>)
      requires Linked() && path <= digits && digits in contents
      ensures path in index
    {
      PrefixIndexed(digits, |path|);
      assert digits[..|path|] == path;
    }
  }
}
