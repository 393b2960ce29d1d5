/** The server's list of (client, topic) subscriptions: a singly linked list changed in place. */
module Subscriptions {
  import opened Messages
  import opened Lists

  datatype Sub = Sub(client: string, topic: string)

  function OfClient(c: string): Sub -> bool { (e: Sub) => e.client == c }
  function OnTopic(t: string): Sub -> bool { (e: Sub) => e.topic == t }
  function IsPair(d: Sub): Sub -> bool { (e: Sub) => d.client == e.client && d.topic == e.topic }

  /** The distinct non-empty topics of a list. */
  function Topics(s: seq<Sub>): set<string> {
    set e | e in s && e.topic != "" :: e.topic
  }

  /** What the C functions return: the number of indices found, or CMS_ERROR when there is none. */
  function CountOrError(n: nat): int {
    if n == 0 then CMS_ERROR else n
  }

  class SubNode {
    var data: Sub
    var next: SubNode?

    constructor (data: Sub)
      ensures this.data == data && next == null
    {
      this.data := data;
      next := null;
    }
  }

  class SubscriptionList {
    var head: SubNode?
    ghost var nodes: seq<SubNode>
    ghost var contents: seq<Sub>
    ghost var Repr: set<object>

    ghost predicate Valid()
      reads this, Repr
      ensures Valid() ==> this in Repr
    {
      && this in Repr
      && |nodes| == |contents|
      && head == (if nodes == [] then null else nodes[0])
      && NoDuplicates(nodes)
      && (forall i :: 0 <= i < |nodes| ==> nodes[i] in Repr)
      && (forall i :: 0 <= i < |nodes| ==> nodes[i].data == contents[i])
      && (forall i {:trigger nodes[i].next} :: 0 <= i < |nodes| ==>
            nodes[i].next == if i + 1 < |nodes| then nodes[i + 1] else null)
    }

    constructor ()
      ensures Valid() && fresh(Repr) && contents == []
    {
      head := null;
      nodes, contents, Repr := [], [], {this};
    }

    /** The node reached after `k` steps from the head. */
    ghost function NodeAt(k: nat): (n: SubNode?)
      requires Valid() && k <= |nodes|
      reads this, Repr
    {
      if k < |nodes| then nodes[k] else null
    }

    method GetLengthList() returns (length: nat)
      requires Valid()
      ensures length == |contents|
    {
      length := 0;
      var tmp := head;
      while tmp != null
        invariant length <= |nodes| && tmp == NodeAt(length)
        decreases |nodes| - length
      {
        length := length + 1;
        tmp := tmp.next;
      }
    }

    method AddClient(data: Sub) returns (r: int)
      requires Valid()
      modifies Repr
      ensures Valid() && fresh(Repr - old(Repr))
      ensures r == CMS_SUCCESS && contents == old(contents) + [data]
    {
      var newClient := new SubNode(data);
      var tmp := head;
      if head == null {
        head := newClient;
      } else {
        ghost var k := 0;
        while tmp.next != null
          invariant k < |nodes| && tmp == nodes[k]
          decreases |nodes| - k
        {
          tmp := tmp.next;
          k := k + 1;
        }
        tmp.next := newClient;
      }
      nodes, contents, Repr := nodes + [newClient], contents + [data], Repr + {newClient};
      r := CMS_SUCCESS;
    }

    method UnlinkHead()
      requires Valid() && head != null
      modifies this
      ensures Valid() && Repr == old(Repr) && contents == DeleteAt(old(contents), 0)
    {
      head := head.next;
      nodes, contents := nodes[1..], contents[1..];
    }

    /** Unlinks the node after `tmp`, the node number `k`. */
    method UnlinkAfter(tmp: SubNode, ghost k: nat)
      requires Valid() && k + 1 < |nodes| && tmp == nodes[k]
      modifies this, tmp
      ensures Valid() && Repr == old(Repr) && contents == DeleteAt(old(contents), k + 1)
    {
      var delete := tmp.next;
      if delete.next == null {
        tmp.next := null;
      } else {
        tmp.next := delete.next;
      }
      nodes := nodes[..k + 1] + nodes[k + 2..];
      contents := contents[..k + 1] + contents[k + 2..];
    }

    /** A negative index unlinks the second entry; on a list of one entry it would dereference null. */
    method DeleteClient(index: int) returns (r: int)
      requires Valid() && (index < 0 ==> |contents| != 1)
      modifies Repr
      ensures Valid() && Repr == old(Repr)
      ensures contents == DeleteAt(old(contents), if index < 0 then 1 else index)
      ensures r == CMS_SUCCESS <==> (if index < 0 then 1 else index) < |old(contents)|
      ensures r == CMS_SUCCESS || r == CMS_ERROR
    {
      var tmp := head;
      var lengthList := GetLengthList();
      if tmp == null {
        return CMS_ERROR;
      }
      if index == 0 {
        UnlinkHead();
        return CMS_SUCCESS;
      } else if index >= lengthList {
        return CMS_ERROR;
      }
      var i := 0;
      while i < index - 1
        invariant 0 <= i < lengthList && tmp == nodes[i] && (i <= index - 1 || i == 0)
      {
        tmp := tmp.next;
        i := i + 1;
      }
      UnlinkAfter(tmp, i);
      return CMS_SUCCESS;
    }

    method GetIndexByTopic(topic: string, result: array<nat>) returns (r: int)
      requires Valid() && result !in Repr
      requires |contents| <= result.Length
      modifies result
      ensures r == CountOrError(|Where(contents, OnTopic(topic))|)
      ensures result[..|Where(contents, OnTopic(topic))|] == Where(contents, OnTopic(topic))
    {
      var sizeArr, index := 0, 0;
      var tmp := head;
      ghost var found: seq<nat> := [];
      assert Where(contents[..0], OnTopic(topic)) == [];
      hide Where;
      while tmp != null
        invariant index <= |nodes| && tmp == NodeAt(index)
        invariant sizeArr <= index
        invariant found == Where(contents[..index], OnTopic(topic)) && result[..sizeArr] == found
        decreases |nodes| - index
      {
        WhereStep(contents, OnTopic(topic), index);
        if tmp.data.topic == topic {
          result[sizeArr] := index;
          found := found + [index];
          sizeArr := sizeArr + 1;
        }
        tmp := tmp.next;
        index := index + 1;
      }
      assert contents[..index] == contents;
      return if sizeArr == 0 then CMS_ERROR else sizeArr;
    }

    method GetIndexByName(name: string, result: array<nat>) returns (r: int)
      requires Valid() && result !in Repr
      requires |contents| <= result.Length
      modifies result
      ensures r == CountOrError(|Where(contents, OfClient(name))|)
      ensures result[..|Where(contents, OfClient(name))|] == Where(contents, OfClient(name))
    {
      var index, sizeArr := 0, 0;
      var tmp := head;
      ghost var found: seq<nat> := [];
      assert Where(contents[..0], OfClient(name)) == [];
      hide Where;
      while tmp != null
        invariant index <= |nodes| && tmp == NodeAt(index)
        invariant sizeArr <= index
        invariant found == Where(contents[..index], OfClient(name)) && result[..sizeArr] == found
        decreases |nodes| - index
      {
        WhereStep(contents, OfClient(name), index);
        if tmp.data.client == name {
          result[sizeArr] := index;
          found := found + [index];
          sizeArr := sizeArr + 1;
        }
        tmp := tmp.next;
        index := index + 1;
      }
      assert contents[..index] == contents;
      return if sizeArr == 0 then CMS_ERROR else sizeArr;
    }

    method GetIndexByData(data: Sub) returns (r: int)
      requires Valid()
      ensures r == CMS_ERROR <==> data !in contents
      ensures r != CMS_ERROR ==> r == First(contents, IsPair(data)) < |contents|
    {
      var tmp := head;
      var index := 0;
      while tmp != null
        invariant 0 <= index <= |nodes| && tmp == NodeAt(index)
        invariant forall j :: 0 <= j < index ==> contents[j] != data
        decreases |nodes| - index
      {
        if data.client == tmp.data.client && data.topic == tmp.data.topic {
          return index;
        }
        tmp := tmp.next;
        index := index + 1;
      }
      return CMS_ERROR;
    }

    /** `None` stands for the null pointer; a negative index yields the first entry. */
    method GetDataByIndex(index: int) returns (r: Option<Sub>)
      requires Valid()
      ensures var i := if index < 0 then 0 else index;
        r == if i < |contents| then Some(contents[i]) else None
    {
      var tmp := head;
      if tmp == null {
        return None;
      }
      var i := 0;
      while i < index
        invariant 0 <= i < |nodes| && tmp == nodes[i] && (i <= index || i == 0)
      {
        if tmp.next != null {
          tmp := tmp.next;
        } else {
          return None;
        }
        i := i + 1;
      }
      return Some(tmp.data);
    }

    /** One pass over the table of topics seen so far: `t` is stored in the first unused slot
        unless a used slot, or the zeroed unused one, already equals it. */
    method NoteTopic(topic: array<string>, count: nat, t: string) returns (r: nat)
      requires count < topic.Length && topic[count] == ""
      modifies topic
      ensures r == if t in old(topic[..count + 1]) then count else count + 1
      ensures topic[..r] == old(topic[..count]) + if r == count then [] else [t]
      ensures forall k :: r <= k < topic.Length ==> topic[k] == old(topic[k])
    {
      var j := 0;
      while j <= count
        invariant 0 <= j <= count
        invariant t !in topic[..j]
        invariant topic[..] == old(topic[..])
        decreases count - j
      {
        if topic[j] == t {
          assert topic[j] in topic[..count + 1];
          return count;
        }
        if j == count {
          assert topic[..count + 1] == topic[..count] + [topic[count]];
          topic[count] := t;
          return count + 1;
        }
        j := j + 1;
      }
      assert false;
    }

    /** Counts with the table of topics seen so far; an empty topic matches the first unused,
        zeroed slot of the table and is not counted. */
    method CountTopic() returns (count: nat)
      requires Valid()
      ensures count == |Topics(contents)|
    {
      var lengthList := GetLengthList();
      if lengthList == 0 {
        return 0;
      }
      var tmp := head;
      var topic := new string[lengthList](_ => "");
      count := 0;
      assert Topics(contents[..0]) == {};
      hide Topics, NoDuplicates;
      for i := 0 to lengthList
        invariant tmp == NodeAt(i)
        invariant count <= i
        invariant "" !in topic[..count]
        invariant forall j :: count <= j < lengthList ==> topic[j] == ""
        invariant NoDuplicates(topic[..count])
        invariant Topics(contents[..i]) == set t | t in topic[..count]
      {
        TopicNoted(topic[..count], contents[..i], contents[i]);
        assert contents[..i + 1] == contents[..i] + [contents[i]];
        assert topic[..count + 1] == topic[..count] + [""];
        count := NoteTopic(topic, count, tmp.data.topic);
        tmp := tmp.next;
      }
      assert contents[..lengthList] == contents;
      DistinctCount(topic[..count]);
    }
  }

  /** The table of topics after one more entry. */
  lemma TopicNoted(seen: seq<string>, s: seq<Sub>, e: Sub)
    requires "" !in seen && NoDuplicates(seen) && Topics(s) == set t | t in seen
    ensures var more := if e.topic == "" || e.topic in seen then seen else seen + [e.topic];
      "" !in more && NoDuplicates(more) && Topics(s + [e]) == set t | t in more
  {
    hide Topics;
    TopicsSnoc(s, e);
  }

  lemma TopicsSnoc(s: seq<Sub>, e: Sub)
    ensures Topics(s + [e]) == Topics(s) + (if e.topic == "" then {} else {e.topic})
  {
    var u := s + [e];
    forall t | t in Topics(s) ensures t in Topics(u) {
      var x :| x in s && x.topic != "" && x.topic == t;
      assert x in u;
    }
    if e.topic != "" { assert e in u; }
  }

  lemma {:induction false} DistinctCount(s: seq<string>)
    requires NoDuplicates(s)
    ensures |set t | t in s| == |s|
  {
    if s != [] {
      var n := |s| - 1;
      DistinctCount(s[..n]);
      assert (set t | t in s) == (set t | t in s[..n]) + {s[n]};
    }
  }

  lemma TopicsOfSome(s: seq<Sub>, r: seq<Sub>)
    requires forall e :: e in r ==> e in s
    ensures Topics(r) <= Topics(s) && |Topics(r)| <= |Topics(s)|
  {
    SubsetSize(Topics(r), Topics(s));
  }

  lemma {:induction false} SubsetSize<T>(a: set<T>, b: set<T>)
    requires a <= b
    ensures |a| <= |b|
  {
    if a != {} {
      var x :| x in a;
      SubsetSize(a - {x}, b - {x});
    }
  }
}
