/** The list of clients whose queue was found full, with the message recorded at the first overflow. */
module Monitor {
  import opened Messages
  import opened Lists

  datatype Payload = Payload(source: string, topic: string, data: string, client: string, sendCount: nat)

  function For(c: string): Payload -> bool { (p: Payload) => p.client == c }

  /** The entry `get_payload_monitor_list` finds for a client. */
  function Find(mon: seq<Payload>, c: string): (r: Option<Payload>)
    ensures r.Some? ==> r.value in mon && r.value.client == c
    ensures r.None? <==> forall p :: p in mon ==> p.client != c
  {
    var k := First(mon, For(c));
    if k < |mon| then Some(mon[k]) else None
  }

  /** The list after the first entry of `c` is changed, dropped or, when there is none, appended. */
  function SetEntry(mon: seq<Payload>, c: string, e: Option<Payload>): seq<Payload> {
    var k := First(mon, For(c));
    match e
    case None => DeleteAt(mon, k)
    case Some(p) => if k < |mon| then mon[k := p] else mon + [p]
  }

  /** At most one entry per client. */
  ghost predicate OnePerClient(mon: seq<Payload>) {
    forall i, j :: 0 <= i < j < |mon| ==> mon[i].client != mon[j].client
  }

  /** Setting the entry of one client keeps entries unique and is what a later lookup finds. */
  lemma SetEntryFinds(mon: seq<Payload>, c: string, e: Option<Payload>)
    requires OnePerClient(mon)
    requires e.Some? ==> e.value.client == c
    ensures OnePerClient(SetEntry(mon, c, e))
    ensures Find(SetEntry(mon, c, e), c) == e
  {
    var k := First(mon, For(c));
    var after := SetEntry(mon, c, e);
    assert OnePerClient(after);
    if e.Some? {
      FindUnique(after, if k < |mon| then k else |mon|);
    }
  }

  /** Removing an entry just changed is removing the entry; removing a missing one does nothing. */
  lemma SetEntryTwice(mon: seq<Payload>, c: string, p: Payload)
    requires p.client == c
    ensures Find(mon, c).Some? ==>
              SetEntry(SetEntry(mon, c, Some(p)), c, None) == SetEntry(mon, c, None)
    ensures Find(mon, c).None? ==> SetEntry(mon, c, None) == mon
  {
    var k := First(mon, For(c));
    if k < |mon| {
      var changed := mon[k := p];
      assert For(c)(changed[k]);
      assert First(changed, For(c)) == k;
      assert DeleteAt(changed, k) == DeleteAt(mon, k);
    }
  }

  /** It keeps the entry of every other client, and the order of the others. */
  lemma SetEntryKeepsOthers(mon: seq<Payload>, c: string, e: Option<Payload>)
    requires e.Some? ==> e.value.client == c
    ensures Drop(SetEntry(mon, c, e), For(c)) == Drop(mon, For(c))
  {
    var k := First(mon, For(c));
    var after := SetEntry(mon, c, e);
    if k < |mon| {
      DropAround(mon, k, For(c));
      assert For(c)(mon[k]);
      if e.None? {
        DropAppend(mon[..k], mon[k + 1..], For(c));
      } else {
        DropAround(after, k, For(c));
        assert after[..k] == mon[..k] && after[k + 1..] == mon[k + 1..];
      }
    }
  }

  lemma SetEntryKeepsLookups(mon: seq<Payload>, c: string, e: Option<Payload>, d: string)
    requires e.Some? ==> e.value.client == c
    requires d != c
    ensures Find(SetEntry(mon, c, e), d) == Find(mon, d)
  {
    SetEntryKeepsOthers(mon, c, e);
    FindIgnores(mon, c, d);
    FindIgnores(SetEntry(mon, c, e), c, d);
  }

  /** A lookup for `d` does not depend on the entries of another client. */
  lemma {:induction false} FindIgnores(mon: seq<Payload>, c: string, d: string)
    requires c != d
    ensures Find(mon, d) == Find(Drop(mon, For(c)), d)
  {
    if mon != [] {
      var n := |mon| - 1;
      var front, p := mon[..n], mon[n];
      var rest := Drop(front, For(c));
      FindIgnores(front, c, d);
      assert mon == front + [p];
      FindSnoc(front, p, d);
      if p.client == c {
        assert Drop(mon, For(c)) == rest;
      } else {
        assert Drop(mon, For(c)) == rest + [p];
        FindSnoc(rest, p, d);
      }
    }
  }

  lemma FindSnoc(mon: seq<Payload>, p: Payload, d: string)
    ensures Find(mon + [p], d) == if Find(mon, d).None? && p.client == d then Some(p) else Find(mon, d)
  {
    var longer := mon + [p];
    if Find(mon, d).Some? {
      assert longer[First(mon, For(d))] == mon[First(mon, For(d))];
    } else if p.client == d {
      assert For(d)(longer[|mon|]);
    }
  }

  /** With one entry per client, whatever entry of a client is in the list is the one found. */
  lemma FindUnique(mon: seq<Payload>, i: nat)
    requires OnePerClient(mon) && i < |mon|
    ensures Find(mon, mon[i].client) == Some(mon[i])
  {
    assert For(mon[i].client)(mon[i]);
  }

  /** The recorded payload; the server increments `sendCount` through the pointer it looked up. */
  class PayloadCell {
    const source: string
    const topic: string
    const data: string
    const client: string
    var sendCount: nat

    constructor (source: string, topic: string, data: string, client: string)
      ensures Value() == Payload(source, topic, data, client, 0)
    {
      this.source, this.topic, this.data, this.client := source, topic, data, client;
      sendCount := 0;
    }

    function Value(): Payload
      reads this
    {
      Payload(source, topic, data, client, sendCount)
    }
  }

  class MonitorNode {
    const payload: PayloadCell
    var next: MonitorNode?

    constructor (payload: PayloadCell)
      ensures this.payload == payload && next == null
    {
      this.payload := payload;
      next := null;
    }
  }

  class MonitorList {
    var head: MonitorNode?
    ghost var nodes: seq<MonitorNode>
    ghost var contents: seq<Payload>
    ghost var Repr: set<object>

    ghost predicate Valid()
      reads this, Repr
      ensures Valid() ==> this in Repr
    {
      && this in Repr
      && |nodes| == |contents|
      && head == (if nodes == [] then null else nodes[0])
      && (forall i, j :: 0 <= i < j < |nodes| ==> nodes[i].payload != nodes[j].payload)
      && (forall i :: 0 <= i < |nodes| ==> nodes[i] in Repr && nodes[i].payload in Repr)
      && (forall i :: 0 <= i < |nodes| ==> nodes[i].payload.Value() == contents[i])
      && (forall i {:trigger nodes[i].next} :: 0 <= i < |nodes| ==>
            nodes[i].next == if i + 1 < |nodes| then nodes[i + 1] else null)
    }

    constructor ()
      ensures Valid() && fresh(Repr) && contents == []
    {
      head := null;
      nodes, contents, Repr := [], [], {this};
    }

    method Add(payload: PayloadCell) returns (r: int)
      requires Valid() && payload !in Repr
      modifies Repr
      ensures Valid() && fresh(Repr - old(Repr) - {payload})
      ensures r == CMS_SUCCESS && contents == old(contents) + [payload.Value()]
    {
      var newClient := new MonitorNode(payload);
      var tmp := head;
      if head == null {
        head := newClient;
      } else {
        ghost var k := 0;
        while tmp.next != null
          invariant k < |nodes| && tmp == nodes[k]
          decreases |nodes| - k
        {
          tmp := tmp.next;
          k := k + 1;
        }
        tmp.next := newClient;
      }
      nodes, contents := nodes + [newClient], contents + [payload.Value()];
      Repr := Repr + {newClient, payload};
      r := CMS_SUCCESS;
    }

    /** Unlinks the first node. */
    method UnlinkHead()
      requires Valid() && head != null
      modifies this
      ensures Valid() && Repr == old(Repr) && contents == DeleteAt(old(contents), 0)
    {
      head := head.next;
      nodes, contents := nodes[1..], contents[1..];
    }

    /** Unlinks the node after `tmp`, the node number `k`. */
    method UnlinkAfter(tmp: MonitorNode, ghost k: nat)
      requires Valid() && k + 1 < |nodes| && tmp == nodes[k]
      modifies this, tmp
      ensures Valid() && Repr == old(Repr) && contents == DeleteAt(old(contents), k + 1)
    {
      hide DeleteAt;
      DeleteAtShifts(nodes, k + 1);
      DeleteAtShifts(contents, k + 1);
      var delete := tmp.next;
      tmp.next := delete.next;
      nodes, contents := DeleteAt(nodes, k + 1), DeleteAt(contents, k + 1);
    }

    method Delete(client: string) returns (r: int)
      requires Valid()
      modifies Repr
      ensures Valid() && Repr == old(Repr)
      ensures contents == SetEntry(old(contents), client, None)
      ensures r == CMS_SUCCESS <==> Find(old(contents), client).Some?
      ensures r == CMS_SUCCESS || r == CMS_ERROR
    {
      var tmp := head;
      if tmp == null {
        return CMS_ERROR;
      }
      assert nodes[0].payload.Value() == contents[0];
      if tmp.payload.client == client {
        UnlinkHead();
        return CMS_SUCCESS;
      }
      ghost var k := 0;
      while tmp.next != null && tmp.next.payload.client != client
        invariant k < |nodes| && tmp == nodes[k]
        invariant forall j :: 0 <= j <= k ==> contents[j].client != client
        decreases |nodes| - k
      {
        assert nodes[k + 1].payload.Value() == contents[k + 1];
        tmp := tmp.next;
        k := k + 1;
      }
      if tmp.next == null {
        return CMS_ERROR;
      }
      assert nodes[k + 1].payload.Value() == contents[k + 1];
      UnlinkAfter(tmp, k);
      return CMS_SUCCESS;
    }

    /** The payload found, by reference; null when there is none. */
    method Get(client: string) returns (r: PayloadCell?, ghost k: nat)
      requires Valid()
      ensures k == First(contents, For(client))
      ensures if k < |contents| then r == nodes[k].payload else r == null
      ensures r == null <==> Find(contents, client) == None
      ensures r != null ==> Find(contents, client) == Some(r.Value())
    {
      var tmp := head;
      k := 0;
      while tmp != null
        invariant k <= |nodes| && tmp == if k < |nodes| then nodes[k] else null
        invariant forall j :: 0 <= j < k ==> contents[j].client != client
        decreases |nodes| - k
      {
        assert nodes[k].payload.Value() == contents[k];
        if tmp.payload.client == client {
          return tmp.payload, k;
        }
        tmp := tmp.next;
        k := k + 1;
      }
      return null, k;
    }

    /** `pl->send_count++` through the reference obtained from `Get`. */
    method CountOverflow(pl: PayloadCell, ghost k: nat)
      requires Valid() && k < |nodes| && pl == nodes[k].payload
      modifies pl, this
      ensures Valid() && Repr == old(Repr)
      ensures contents == old(contents)[k := old(contents)[k].(sendCount := old(contents)[k].sendCount + 1)]
      ensures nodes == old(nodes) && pl.Value() == contents[k]
    {
      assert pl.Value() == contents[k];
      pl.sendCount := pl.sendCount + 1;
      contents := contents[k := pl.Value()];
    }
  }
}
