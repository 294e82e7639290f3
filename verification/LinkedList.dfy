/** Singly linked lists made of arrays of indices, shared by the modules of this project. */
module LinkedList {

  const NULL := -1

  /** Following `next` from `head` gives `links` and then NULL. */
  ghost predicate List(next: seq<int>, head: int, links: seq<int>)
    decreases |links|
  {
    if links == [] then head == NULL
    else 0 <= head < |next| && head == links[0] && List(next, next[head], links[1..])
  }

  lemma {:induction false} ListFrom(next: seq<int>, head: int, links: seq<int>, k: nat)
    requires List(next, head, links) && k < |links|
    ensures 0 <= links[k] < |next| && List(next, links[k], links[k..]) && List(next, next[links[k]], links[k + 1..])
    decreases k
  {
    if k > 0 {
      ListFrom(next, next[head], links[1..], k - 1);
      assert links[1..][k - 1..] == links[k..] && links[1..][k..] == links[k + 1..];
    }
  }

  lemma {:induction false} ListSame(next: seq<int>, head: int, a: seq<int>, b: seq<int>)
    requires List(next, head, a) && List(next, head, b)
    ensures a == b
    decreases |a|
  {
    if a != [] && b != [] {
      ListSame(next, next[head], a[1..], b[1..]);
      assert a == [a[0]] + a[1..] && b == [b[0]] + b[1..];
    }
  }

  /** A list that ends has no link twice. */
  lemma ListDistinct(next: seq<int>, head: int, links: seq<int>, i: nat, j: nat)
    requires List(next, head, links) && i < j < |links|
    ensures links[i] != links[j]
  {
    ListFrom(next, head, links, i);
    ListFrom(next, head, links, j);
    if links[i] == links[j] {
      ListSame(next, links[i], links[i..], links[j..]);
    }
  }

  lemma {:induction false} ListRange(next: seq<int>, head: int, links: seq<int>)
    requires List(next, head, links)
    ensures forall i :: 0 <= i < |links| ==> 0 <= links[i] < |next|
    decreases |links|
  {
    if links != [] {
      ListRange(next, next[head], links[1..]);
      assert forall i :: 0 < i < |links| ==> links[i] == links[1..][i - 1];
    }
  }

  lemma ListHead(next: seq<int>, head: int, links: seq<int>)
    requires List(next, head, links)
    ensures head == NULL <==> links == []
    ensures head != NULL ==> 0 <= head < |next| && links[0] == head && List(next, next[head], links[1..])
  {
  }

  lemma {:induction false} FrameList(next: seq<int>, next': seq<int>, head: int, links: seq<int>)
    requires List(next, head, links) && |next'| == |next|
    requires forall c :: c in links && 0 <= c < |next| ==> next'[c] == next[c]
    ensures List(next', head, links)
    decreases |links|
  {
    if links != [] {
      FrameList(next, next', next[head], links[1..]);
    }
  }

  lemma PushList(next: seq<int>, head: int, links: seq<int>, c: int)
    requires List(next, head, links) && 0 <= c < |next| && c !in links
    ensures List(next[c := head], c, [c] + links)
  {
    FrameList(next, next[c := head], head, links);
    assert ([c] + links)[1..] == links;
  }

  ghost predicate Distinct(s: seq<int>) {
    forall i, j :: 0 <= i < j < |s| ==> s[i] != s[j]
  }
}
