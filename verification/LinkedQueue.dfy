/** Messages, and the reusable node a consumer pops them into. */
module Messages {
  import opened Bytes

  /** The size of the nodes that messages are popped into. */
  const NODE_SIZE: nat := 1024

  datatype Port = NoPort | DUER | UART

  datatype Payload = Payload(data: seq<byte>, recvFd: int, sendTo: Port)

  /** A node seen as a buffer: all of its bytes, of which the first `dataLen` are the message. */
  datatype Buffer = Buffer(bytes: seq<byte>, dataLen: nat, recvFd: int, sendTo: Port)

  /** What popping `p` leaves in a buffer: the message in front, the rest of the old bytes behind it. */
  function Load(b: Buffer, p: Payload): (r: Buffer)
    requires |p.data| <= |b.bytes|
    ensures |r.bytes| == |b.bytes| && r.dataLen == |p.data| && r.bytes[..r.dataLen] == p.data
    ensures r.bytes[r.dataLen..] == b.bytes[r.dataLen..] && r.recvFd == p.recvFd && r.sendTo == p.sendTo
  {
    Buffer(p.data + b.bytes[|p.data|..], |p.data|, p.recvFd, p.sendTo)
  }
}

/** The singly linked message queue with a sentinel, whose last node points to itself. */
module LinkedQueue {
  import opened Bytes
  import opened Messages
  import opened Wrappers

  class Node {
    var next: Node?
    var pdata: array?<byte>  // null in the sentinel, which carries no data
    var dataLen: nat
    var recvFd: int
    var sendTo: Port
    ghost var frees: nat     // how often the node has been freed

    ghost predicate Live()
      reads `frees
    {
      frees == 0
    }

    ghost predicate Filled()
      reads this
    {
      Live() && pdata != null && dataLen <= pdata.Length
    }

    ghost function Message(): Payload
      requires Filled()
      reads this, pdata
    {
      Payload(pdata[..dataLen], recvFd, sendTo)
    }

    ghost function View(): Buffer
      requires pdata != null
      reads this, pdata
    {
      Buffer(pdata[..], dataLen, recvFd, sendTo)
    }

    /** The link of a node, which may be followed only until the node is freed. */
    function Next(): Node?
      requires Live()
      reads this
    {
      next
    }

    constructor Sentinel()
      ensures pdata == null && Live() && next == null
    {
      next, pdata := null, null;
      dataLen, recvFd, sendTo := 0, 0, NoPort;
      frees := 0;
    }

    /** A zeroed node with room for `bufLen` bytes. */
    constructor (bufLen: nat)
      ensures Filled() && fresh(pdata) && next == null && pdata.Length == bufLen
      ensures dataLen == 0 && recvFd == 0 && sendTo == NoPort
      ensures forall i :: 0 <= i < bufLen ==> pdata[i] == 0
    {
      next := null;
      pdata := new byte[bufLen](_ => 0);
      dataLen, recvFd, sendTo := 0, 0, NoPort;
      frees := 0;
    }

    method CopyFrom(src: Node)
      requires pdata != null && src.Filled() && src != this && src.pdata != pdata && src.dataLen <= pdata.Length
      modifies `dataLen, `recvFd, `sendTo, pdata
      ensures View() == Load(old(View()), old(src.Message()))
    {
      forall i | 0 <= i < src.dataLen {
        pdata[i] := src.pdata[i];
      }
      dataLen := src.dataLen;
      recvFd := src.recvFd;
      sendTo := src.sendTo;
    }

    /** Sets length and bytes of the message. */
    method Store(data: seq<byte>)
      requires Filled() && |data| <= pdata.Length
      modifies `dataLen, pdata
      ensures Filled() && Message() == Payload(data, recvFd, sendTo)
    {
      dataLen := |data|;
      forall i | 0 <= i < |data| {
        pdata[i] := data[i];
      }
    }

    /** `fgets` into a zeroed node. */
    method Print(text: seq<byte>)
      requires Filled() && |text| < pdata.Length && forall i :: 0 <= i < pdata.Length ==> pdata[i] == 0
      modifies pdata
      ensures pdata[..] == text + Fill(0, pdata.Length - |text|)
    {
      forall i | 0 <= i < |text| {
        pdata[i] := text[i];
      }
    }

    /** Sets the length to that of the string in the buffer. */
    method Measure()
      requires Filled() && exists i :: 0 <= i < pdata.Length && pdata[i] == 0
      modifies `dataLen
      ensures dataLen == Find(pdata[..], 0, 0) < pdata.Length
    {
      var n := 0;
      while pdata[n] != 0
        invariant n < pdata.Length && forall i :: 0 <= i < n ==> pdata[i] != 0
        decreases pdata.Length - n
      {
        n := n + 1;
      }
      FindStopsAt(pdata[..], 0, 0, n);
      dataLen := n;
    }

    /** The cleaning of a consumer's node after a message. */
    method Clear()
      requires pdata != null
      modifies `dataLen, `recvFd, pdata
      ensures dataLen == 0 && recvFd == -1 && forall i :: 0 <= i < pdata.Length ==> pdata[i] == 0
    {
      forall i | 0 <= i < pdata.Length {
        pdata[i] := 0;
      }
      dataLen := 0;
      recvFd := -1;
    }

    method Free()
      requires Live()
      modifies `frees
      ensures frees == 1
    {
      frees := frees + 1;
    }
  }

  class List {
    const linklistHead: Node
    var linklistTail: Node
    var linknodeCount: nat
    ghost var nodes: seq<Node>          // the sentinel and the elements, in link order
    ghost var buffers: seq<array<byte>> // the buffers of the elements
    ghost var contents: seq<Payload>    // the messages of the elements
    ghost var inserted: seq<Node>       // every node ever inserted, in order

    ghost predicate Linked()
      reads this, nodes
    {
      && |nodes| == linknodeCount + 1
      && nodes[0] == linklistHead
      && linklistTail == nodes[linknodeCount]
      && linklistTail.next == linklistTail
      && (forall i :: 0 <= i < linknodeCount ==> nodes[i].next == nodes[i + 1])
      && (forall i, j :: 0 <= i < j < |nodes| ==> nodes[i] != nodes[j])
      && linklistHead.Live() && linklistHead.pdata == null
    }

    ghost predicate Element(i: nat)
      requires i < |buffers| == |contents| && |nodes| == |buffers| + 1
      reads this, nodes, buffers
    {
      var n := nodes[i + 1];
      n.Filled() && n.pdata == buffers[i] && n.Message() == contents[i]
    }

    /** The elements are the youngest insertions, in order, and every older one has been freed exactly once. */
    ghost predicate Lifetimes()
      reads this, inserted
    {
      && |nodes| == linknodeCount + 1 && linknodeCount <= |inserted|
      && nodes[1..] == inserted[|inserted| - linknodeCount..]
      && (forall i :: 0 <= i < |inserted| - linknodeCount ==> inserted[i].frees == 1)
    }

    ghost predicate Valid()
      reads this, nodes, buffers, inserted
    {
      && Linked()
      && |buffers| == |contents| == linknodeCount
      && (forall i :: 0 <= i < linknodeCount ==> Element(i))
      && (forall i, j :: 0 <= i < j < linknodeCount ==> buffers[i] != buffers[j])
      && Lifetimes()
    }

    /** The position of the first element among the insertions. */
    ghost function Oldest(): int
      reads this
    {
      |inserted| - linknodeCount
    }

    /** A node of somebody else, into which messages can be popped. */
    ghost predicate Apart(n: Node)
      reads this, n
    {
      n.Live() && n !in nodes && n.pdata !in buffers
    }

    constructor ()
      ensures Valid() && contents == [] && inserted == [] && nodes == [linklistHead] && buffers == []
      ensures fresh(linklistHead)
    {
      var sentinel := new Node.Sentinel();
      linklistHead := sentinel;
      linklistTail := sentinel;
      linknodeCount := 0;
      nodes, buffers, contents, inserted := [sentinel], [], [], [];
      new;
      linklistHead.next := linklistTail;
    }

    method IsEmpty() returns (empty: bool)
      requires Valid()
      ensures empty <==> contents == []
    {
      empty := linknodeCount == 0;
    }

    lemma TailIsLive()
      requires Valid()
      ensures linklistTail.Live() && linklistTail in nodes
    {
      assert linknodeCount > 0 ==> Element(linknodeCount - 1);
    }

    method InsertNode(datanode: Node)
      requires Valid() && datanode.Filled() && Apart(datanode)
      modifies this, linklistTail`next, datanode`next
      ensures Valid() && linklistTail == datanode
      ensures nodes == old(nodes) + [datanode] && buffers == old(buffers) + [datanode.pdata]
      ensures contents == old(contents) + [old(datanode.Message())]
      ensures inserted == old(inserted) + [datanode]
    {
      TailIsLive();
      linklistTail.next := datanode;
      linklistTail := datanode;
      datanode.next := linklistTail;
      linknodeCount := linknodeCount + 1;
      nodes := nodes + [datanode];
      buffers := buffers + [datanode.pdata];
      contents := contents + [datanode.Message()];
      inserted := inserted + [datanode];
      assert nodes[1..] == old(nodes)[1..] + [datanode];
      assert Linked();
      assert Lifetimes();
      assert forall i :: 0 <= i < |old(contents)| ==> old(Element(i)) ==> Element(i);
    }

    /** Takes the first element out of the chain and frees it. With the only element gone its self-link, copied
        into the sentinel, is replaced by the sentinel's own. */
    method UnlinkFirst()
      requires Valid() && linknodeCount > 0
      modifies this, nodes
      ensures Valid() && contents == old(contents)[1..]
      ensures nodes == [linklistHead] + old(nodes)[2..] && buffers == old(buffers)[1..]
      ensures inserted == old(inserted)
    {
      assert Element(0);
      assert nodes[1] == inserted[|inserted| - linknodeCount];
      var tmp := linklistHead.Next();
      linklistHead.next := linklistHead.Next().Next();
      linknodeCount := linknodeCount - 1;
      if linknodeCount == 0 {
        linklistTail := linklistHead;
        linklistTail.next := linklistHead;
      }
      nodes := [linklistHead] + nodes[2..];
      buffers, contents := buffers[1..], contents[1..];
      tmp.Free();
      assert Linked();
      assert Lifetimes();
      assert forall i :: 0 <= i < linknodeCount ==> old(Element(i + 1)) ==> Element(i);
    }

    /** The locked part of a pop: copy the first message out, unlink its node and free it. */
    method PopFirst(datanode: Node)
      requires Valid() && linknodeCount > 0
      requires Apart(datanode) && datanode.pdata != null
      requires |contents[0].data| <= datanode.pdata.Length
      modifies this, nodes
      modifies datanode`dataLen, datanode`recvFd, datanode`sendTo, datanode.pdata
      ensures Valid() && contents == old(contents)[1..]
      ensures nodes == [linklistHead] + old(nodes)[2..] && buffers == old(buffers)[1..]
      ensures inserted == old(inserted)
      ensures datanode.View() == Load(old(datanode.View()), old(contents)[0])
    {
      assert Element(0);
      datanode.CopyFrom(linklistHead.Next());
      assert forall i :: 0 <= i < linknodeCount ==> old(Element(i)) ==> Element(i);
      UnlinkFirst();
    }

    /** Pops the first message into `datanode`. Nothing changes when there is no node, no message or no buffer. */
    method PopNode(datanode: Node?)
      requires Valid()
      requires datanode != null ==> Apart(datanode)
      requires datanode != null && datanode.pdata != null && contents != [] ==>
                 |contents[0].data| <= datanode.pdata.Length
      modifies this, nodes
      modifies if datanode == null then {}
               else if datanode.pdata == null then {datanode}
               else {datanode, datanode.pdata}
      ensures Valid() && inserted == old(inserted)
      ensures if datanode == null || old(contents) == [] || old(datanode.pdata) == null then
                && nodes == old(nodes) && buffers == old(buffers) && contents == old(contents)
                && (datanode != null ==> unchanged(datanode))
                && (datanode != null && old(datanode.pdata) != null ==> unchanged(old(datanode.pdata)))
              else
                && nodes == [linklistHead] + old(nodes)[2..] && buffers == old(buffers)[1..]
                && contents == old(contents)[1..]
                && Apart(datanode) && datanode.pdata == old(datanode.pdata) && datanode.next == old(datanode.next)
                && datanode.View() == Load(old(datanode.View()), old(contents)[0])
    {
      if datanode == null {
        return;
      }
      if linknodeCount == 0 {
        return;
      }
      if datanode.pdata == null {
        return;
      }
      PopFirst(datanode);
    }

    /** The elements are the insertions from `Oldest()` on, live and linked in this order behind the sentinel. */
    lemma ElementsAreLive()
      requires Valid()
      ensures linknodeCount > 0 ==> linklistHead.next == inserted[Oldest()]
      ensures forall k :: Oldest() <= k < |inserted| ==> inserted[k].Live() && inserted[k] != linklistHead
      ensures forall k :: Oldest() <= k < |inserted| - 1 ==> inserted[k].next == inserted[k + 1]
      ensures forall j, k :: Oldest() <= j < k < |inserted| ==> inserted[j] != inserted[k]
    {
      forall k | Oldest() <= k < |inserted|
        ensures nodes[k - Oldest() + 1] == inserted[k] && inserted[k].Live()
      {
        assert Element(k - Oldest());
        assert nodes[1..][k - Oldest()] == inserted[Oldest()..][k - Oldest()];
      }
    }

    /** Frees the elements, and with the last of them the sentinel. An empty list keeps its sentinel. With the
        pops before it, every node ever inserted has then been freed exactly once. */
    method Destroy()
      requires Valid()
      modifies this, nodes
      ensures inserted == old(inserted) && forall n :: n in inserted ==> n.frees == 1
      ensures linklistHead.frees == if old(contents) == [] then 0 else 1
    {
      ElementsAreLive();
      ghost var k := Oldest();
      ghost var all := nodes;
      while linknodeCount > 0
        invariant old(Oldest()) <= k == |inserted| - linknodeCount && inserted == old(inserted) && nodes == all
        invariant forall i :: 0 <= i < k ==> inserted[i].frees == 1
        invariant forall i :: k <= i < |inserted| ==> inserted[i].Live() && inserted[i] in all
        invariant forall i :: k <= i < |inserted| - 1 ==> inserted[i].next == inserted[i + 1]
        invariant linknodeCount > 0 ==> linklistHead.Live() && linklistHead.next == inserted[k]
        invariant linknodeCount == 0 ==> linklistHead.frees == if old(contents) == [] then 0 else 1
        decreases linknodeCount
      {
        var tmp := linklistHead.Next();
        linklistHead.next := linklistHead.Next().Next();
        linknodeCount := linknodeCount - 1;
        tmp.Free();
        if linknodeCount == 0 {
          linklistTail := linklistHead;
          assert linklistTail.Live();
          linklistTail.next := linklistHead;
          linklistHead.Free();
        }
        k := k + 1;
      }
    }

    /** Queues a copy of the first `len` bytes for sending; without data or with no length nothing is queued. */
    method ReadySendData(sendTo: Port, data: Option<seq<byte>>, len: int) returns (code: int)
      requires Valid() && (data.Some? ==> len <= |data.value|)
      modifies this, linklistTail`next
      ensures Valid() && code == if len <= 0 || data.None? then -1 else 0
      ensures code == -1 ==> unchanged(this) && unchanged(old(linklistTail))
      ensures code == 0 ==> InsertedFresh(Payload(data.value[..len], 0, sendTo), old(nodes), old(buffers),
                                          old(contents), old(inserted))
      ensures code == 0 ==> fresh(linklistTail) && fresh(linklistTail.pdata)
    {
      if len <= 0 || data.None? {
        return -1;
      }
      var node := new Node(len);
      node.sendTo := sendTo;
      node.Store(data.value[..len]);
      assert Valid();
      InsertNode(node);
      return 0;
    }

    /** A message was appended in a node of its own. */
    ghost predicate InsertedFresh(m: Payload, nodes0: seq<Node>, buffers0: seq<array<byte>>, contents0: seq<Payload>,
                                  inserted0: seq<Node>)
      reads this, linklistTail
    {
      && nodes == nodes0 + [linklistTail] && inserted == inserted0 + [linklistTail]
      && linklistTail.pdata != null && buffers == buffers0 + [linklistTail.pdata]
      && contents == contents0 + [m]
    }

    /** Queues a copy of a received message; without memory for the node nothing is queued. */
    method AddData(message: Payload, gotNode: bool) returns (code: int)
      requires Valid()
      modifies this, linklistTail`next
      ensures Valid() && code == if gotNode then 0 else -1
      ensures code == -1 ==> unchanged(this) && unchanged(old(linklistTail))
      ensures code == 0 ==> InsertedFresh(message.(sendTo := NoPort), old(nodes), old(buffers), old(contents),
                                          old(inserted))
      ensures code == 0 ==> fresh(linklistTail) && fresh(linklistTail.pdata)
    {
      var node := InitNode(|message.data|, gotNode);
      if node == null {
        return -1;
      }
      node.recvFd := message.recvFd;
      node.Store(message.data);
      assert Valid();
      InsertNode(node);
      return 0;
    }
  }

  /** A zeroed node with room for `bufLen` bytes, or none without memory for all of its parts. */
  method InitNode(bufLen: nat, gotMemory: bool) returns (node: Node?)
    ensures node == null <==> !gotMemory
    ensures node != null ==>
              && fresh(node) && node.Filled() && fresh(node.pdata) && node.pdata.Length == bufLen
              && node.View() == Buffer(node.pdata[..], 0, 0, NoPort)
              && forall i :: 0 <= i < bufLen ==> node.pdata[i] == 0
  {
    node := null;
    if gotMemory {
      node := new Node(bufLen);
    }
  }

  /** An empty list, or none without memory for its parts or without its mutex. */
  method InitList(gotMemory: bool, gotMutex: bool) returns (list: List?)
    ensures list == null <==> !(gotMemory && gotMutex)
    ensures list != null ==> fresh(list) && list.Valid() && list.contents == [] && list.inserted == []
    ensures list != null ==> list.nodes == [list.linklistHead] && fresh(list.linklistHead)
  {
    list := null;
    if gotMemory {
      var made := new List();
      if gotMutex {
        list := made;
      }
    }
  }

  /** One pass of the sender over a non-empty list: the first message goes out through its one node, which is
      cleared afterwards. */
  method SendFirst(list: List, datanode: Node) returns (request: Payload)
    requires list.Valid() && list.contents != [] && list.Apart(datanode) && datanode.pdata != null
    requires |list.contents[0].data| <= datanode.pdata.Length
    modifies list, list.nodes, datanode, datanode.pdata
    ensures list.Valid() && [request] + list.contents == old(list.contents)
    ensures list.nodes == [list.linklistHead] + old(list.nodes)[2..] && list.inserted == old(list.inserted)
    ensures list.Apart(datanode) && datanode.pdata == old(datanode.pdata)
    ensures datanode.dataLen == 0 && forall i :: 0 <= i < datanode.pdata.Length ==> datanode.pdata[i] == 0
  {
    list.PopNode(datanode);
    request := Payload(datanode.pdata[..datanode.dataLen], datanode.recvFd, datanode.sendTo);
    assert request == old(list.contents)[0] by {
      assert datanode.View().bytes[..datanode.dataLen] == request.data;
    }
    datanode.Clear();
    assert forall i :: 0 <= i < list.linknodeCount ==> list.Element(i);
  }

  /** What the sender does from a wakeup to its next wait when nobody adds to the list: the messages go out in
      order through its one node. */
  method SendUntilEmpty(list: List, datanode: Node) returns (requests: seq<Payload>)
    requires list.Valid() && list.Apart(datanode) && datanode.pdata != null
    requires forall i :: 0 <= i < |list.contents| ==> |list.contents[i].data| <= datanode.pdata.Length
    modifies list, list.nodes, datanode, datanode.pdata
    ensures list.Valid() && list.contents == [] && requests == old(list.contents)
    ensures list.inserted == old(list.inserted) && forall n :: n in list.inserted ==> n.frees == 1
    ensures list.Apart(datanode) && datanode.pdata == old(datanode.pdata)
  {
    requests := [];
    ghost var all := list.contents;
    while list.linknodeCount != 0
      invariant list.Valid() && list.inserted == old(list.inserted)
      invariant list.Apart(datanode) && datanode.pdata == old(datanode.pdata)
      invariant |requests| <= |all| && requests == all[..|requests|] && list.contents == all[|requests|..]
      invariant forall i :: 0 <= i < |list.nodes| ==> list.nodes[i] in old(list.nodes)
      decreases list.linknodeCount
    {
      assert list.contents[0] == all[|requests|];
      var request := SendFirst(list, datanode);
      requests := requests + [request];
    }
  }
}
