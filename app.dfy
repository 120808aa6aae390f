/** The chat application (main.py): how a session picks its identity, how the
    send button guards and records a message, and how an incoming packet is
    filtered and split into sender and body. The widget tree is reduced to the
    sequence of message bubbles added to it and to the current screen's name. */
module App {
  import opened Text
  import Network
  import Config

  /** The identity used when the user enters none. */
  const DefaultNodeId: string := "Node_X"

  /** The name of the screen shown once the engine has started. */
  const ChatScreen: string := "chat_screen"

  /** The identity a session runs under: `user_id.strip() or "Node_X"`. It is
      never empty and never starts or ends with whitespace. */
  function NormalizeId(userId: string): (id: string)
    ensures id != [] && !IsSpace(id[0]) && !IsSpace(id[|id| - 1])
    ensures AllSpace(userId) ==> id == DefaultNodeId
    ensures !AllSpace(userId) ==> id == Strip(userId)
  {
    if Strip(userId) != [] then Strip(userId) else DefaultNodeId
  }

  /** Normalising an identity that is already normalised changes nothing. */
  lemma NormalizeIdIdempotent(userId: string)
    ensures NormalizeId(NormalizeId(userId)) == NormalizeId(userId)
  {
    var id := NormalizeId(userId);
    StripOfTrimmed(id);
  }

  /** Text the send button ignores (`not text.strip()`): nothing but
      whitespace. */
  predicate Blank(text: string) {
    AllSpace(text)
  }

  /** `Blank` is exactly the emptiness of `text.strip()`. */
  lemma BlankIsEmptyStrip(text: string)
    ensures Blank(text) <==> Strip(text) == []
  {
  }

  /** A one-character string occurs in `s` exactly when the character does. */
  lemma ContainsChar(s: string, c: char)
    ensures Contains(s, [c]) <==> c in s
  {
    if c in s {
      var k :| 0 <= k < |s| && s[k] == c;
      assert OccursAt(s, [c], k);
    }
    if Contains(s, [c]) {
      var k := IndexOf(s, [c]).value;
      assert s[k..k + 1] == [c];
      assert s[k] == c;
    }
  }

  /** The packet is one this node sent: it starts with the node id and ':'. */
  predicate FromSelf(nodeId: string, raw: string): (self: bool)
    ensures self <==> |nodeId| < |raw| && raw[..|nodeId|] == nodeId && raw[|nodeId|] == ':'
  {
    nodeId + ":" <= raw
  }

  /** The sender an incoming packet names: the text before its first ':',
      which therefore holds no ':', or the source address when it has none. */
  function SenderOf(raw: string, ip: string): (sender: string)
    ensures ':' in raw ==> sender <= raw && |sender| < |raw| && raw[|sender|] == ':' && ':' !in sender
    ensures ':' !in raw ==> sender == ip
  {
    ContainsChar(raw, ':');
    if ':' in raw then
      var sender := BeforeFirst(raw, ":");
      ContainsChar(sender, ':');
      assert raw[|sender|..|sender| + 1] == ":";
      sender
    else ip
  }

  /** The body of an incoming packet: the text after its first ": ", or the
      whole packet when it holds no ": ". */
  function BodyOf(raw: string): (body: string)
    ensures Contains(raw, Network.Separator) ==>
      |body| + 2 <= |raw| && body == raw[|raw| - |body|..] &&
      OccursAt(raw, Network.Separator, |raw| - |body| - 2) &&
      forall j :: 0 <= j < |raw| - |body| - 2 ==> !OccursAt(raw, Network.Separator, j)
    ensures !Contains(raw, Network.Separator) ==> body == raw
  {
    if Contains(raw, Network.Separator) then AfterFirst(raw, Network.Separator) else raw
  }

  /** What `on_incoming` passes on: who sent the packet and what it says. */
  datatype Delivery = Delivery(sender: string, body: string)

  /** `on_incoming` without its UI side: nothing for a packet from this node,
      otherwise its sender and body. */
  function Decode(nodeId: string, raw: string, ip: string): (r: Option<Delivery>)
    ensures r.None? <==> FromSelf(nodeId, raw)
    ensures r.Some? && ':' in raw ==> r.value.sender + ":" <= raw && ':' !in r.value.sender
    ensures r.Some? && ':' !in raw ==> r.value == Delivery(ip, raw)
    ensures r.Some? ==> |r.value.body| <= |raw| && r.value.body == raw[|raw| - |r.value.body|..]
    ensures r.Some? && !Contains(raw, Network.Separator) ==> r.value.body == raw
    ensures r.Some? && Contains(raw, Network.Separator) ==>
      |r.value.body| + 2 <= |raw| && OccursAt(raw, Network.Separator, |raw| - |r.value.body| - 2) &&
      forall j :: 0 <= j < |raw| - |r.value.body| - 2 ==> !OccursAt(raw, Network.Separator, j)
  {
    if FromSelf(nodeId, raw) then None
    else
      var sender := SenderOf(raw, ip);
      assert ':' in raw ==> raw[..|sender| + 1] == sender + ":";
      SeparatorHoldsColon(raw);
      Some(Delivery(sender, BodyOf(raw)))
  }

  /** A packet holding ": " holds ':'. */
  lemma SeparatorHoldsColon(raw: string)
    ensures Contains(raw, Network.Separator) ==> ':' in raw
  {
    if Contains(raw, Network.Separator) {
      var k := IndexOf(raw, Network.Separator).value;
      assert raw[k] == raw[k..k + 2][0];
    }
  }

  /** The sender split finds the encoded identity exactly when that identity
      holds no ':'; otherwise it stops at the identity's first ':'. */
  lemma {:induction false} EncodedSenderIff(s: string, m: string, ip: string)
    ensures SenderOf(Network.Encode(s, m), ip) == s <==> ':' !in s
  {
    var raw := Network.Encode(s, m);
    assert raw[|s|] == ':';
    var sender := SenderOf(raw, ip);
    if ':' !in s {
      assert sender == raw[..|sender|];
    } else {
      var k :| 0 <= k < |s| && s[k] == ':';
      assert raw[k] == ':';
    }
  }

  /** At positions inside the identity, ": " occurs in the payload exactly
      where it occurs in the identity (it cannot start on the identity's last
      character, which the payload follows with ':'). */
  lemma SeparatorInPayload(s: string, m: string, j: nat)
    requires j < |s|
    ensures OccursAt(Network.Encode(s, m), Network.Separator, j) <==> OccursAt(s, Network.Separator, j)
  {
    var raw := Network.Encode(s, m);
    if j + 2 <= |s| {
      assert raw[j..j + 2] == s[j..j + 2];
    } else {
      assert raw[|s|] == ':';
      assert raw[j..j + 2][1] == raw[|s|];
    }
  }

  /** The body split finds the encoded message exactly when the identity
      holds no ": "; otherwise it starts inside the identity. */
  lemma {:induction false} EncodedBodyIff(s: string, m: string)
    ensures BodyOf(Network.Encode(s, m)) == m <==> !Contains(s, Network.Separator)
  {
    var raw := Network.Encode(s, m);
    assert Contains(raw, Network.Separator);
    var body := BodyOf(raw);
    var i := |raw| - |body| - 2;
    assert i <= |s|;
    if Contains(s, Network.Separator) {
      var k := IndexOf(s, Network.Separator).value;
      SeparatorInPayload(s, m, k);
      assert i <= k < |s|;
      assert |body| != |m|;
    } else {
      if i < |s| {
        SeparatorInPayload(s, m, i);
      }
    }
  }

  /** Decoding inverts encoding when the identity holds no ':'. */
  lemma RoundTrip(s: string, m: string, ip: string)
    requires ':' !in s
    ensures SenderOf(Network.Encode(s, m), ip) == s
    ensures BodyOf(Network.Encode(s, m)) == m
  {
    EncodedSenderIff(s, m, ip);
    ContainsChar(s, ':');
    EncodedBodyIff(s, m);
  }

  /** For an identity without ':', the self filter drops a packet exactly
      when the sender split would name this node: the filter and the parser
      agree. With a ':' in the identity they never agree, since a parsed
      sender holds no ':'. */
  lemma {:induction false} FilterMatchesSender(nodeId: string, raw: string, ip: string)
    requires ':' in raw
    ensures ':' !in nodeId ==> (FromSelf(nodeId, raw) <==> SenderOf(raw, ip) == nodeId)
    ensures ':' in nodeId ==> SenderOf(raw, ip) != nodeId
  {
    var sender := SenderOf(raw, ip);
    if ':' !in nodeId && FromSelf(nodeId, raw) {
      assert raw[|nodeId|] == ':';
      assert sender == raw[..|sender|];
    }
    if ':' !in nodeId && sender == nodeId {
      assert raw[..|nodeId| + 1] == nodeId + ":";
    }
  }

  /** A node never shows its own broadcasts, whatever its identity. */
  lemma OwnBroadcastSuppressed(nodeId: string, m: string, ip: string)
    ensures Decode(nodeId, Network.Encode(nodeId, m), ip) == None
  {
    assert Network.Encode(nodeId, m)[..|nodeId| + 1] == nodeId + ":";
  }

  /** Between nodes whose identities hold no ':', a broadcast is dropped
      exactly by nodes of the same identity, and every other node receives
      the sender's identity and message unchanged. */
  lemma DecodeEncoded(nodeId: string, s: string, m: string, ip: string)
    requires ':' !in nodeId && ':' !in s
    ensures Decode(nodeId, Network.Encode(s, m), ip) == if nodeId == s then None else Some(Delivery(s, m))
  {
    var raw := Network.Encode(s, m);
    assert raw[|s|] == ':';
    FilterMatchesSender(nodeId, raw, ip);
    RoundTrip(s, m, ip);
  }

  /** A ": " inside an identity moves the split: "a: b" sending "hi" is shown
      as "a" saying "b: hi". */
  lemma SeparatorInIdentityMisparsed(ip: string)
    ensures Decode("Bob", Network.Encode("a: b", "hi"), ip) == Some(Delivery("a", "b: hi"))
  {
    var raw := Network.Encode("a: b", "hi");
    assert raw == "a: b: hi";
    assert raw[0] == 'a' && raw[1] == ':' && raw[2] == ' ';
    assert !FromSelf("Bob", raw);
    var sender := SenderOf(raw, ip);
    assert sender == "a" by {
      assert |sender| == 1;
      assert sender[0] == raw[0];
    }
    var body := BodyOf(raw);
    assert OccursAt(raw, Network.Separator, 1);
    assert body == raw[3..];
  }

  /** Only the first ": " splits: "Eve" sending "a:b:c" is shown as "Eve"
      saying "a:b:c" by any other colon-free node. */
  lemma ColonsInBodyKept(nodeId: string, ip: string)
    requires ':' !in nodeId && nodeId != "Eve"
    ensures Decode(nodeId, Network.Encode("Eve", "a:b:c"), ip) == Some(Delivery("Eve", "a:b:c"))
  {
    DecodeEncoded(nodeId, "Eve", "a:b:c", ip);
  }

  /** The filter only compares prefixes: node "a" drops every broadcast of
      node "a:b" as if it were its own. */
  lemma PrefixIdentityShadowed(m: string, ip: string)
    ensures Decode("a", Network.Encode("a:b", m), ip) == None
  {
    assert Network.Encode("a:b", m)[..2] == "a:";
  }

  /** A message bubble added to the chat list (its time stamp is not modelled). */
  datatype Bubble = Bubble(message: string, sender: string, isMe: bool)

  /** The text field the send button reads and clears. */
  class TextInput {
    var text: string

    constructor (text: string)
      ensures this.text == text
    {
      this.text := text;
    }
  }

  /** The application object: its identity, its engine, the current screen
      and the bubbles added to the chat list so far. */
  class AkonApp {
    var nodeId: string
    var current: string
    var bubbles: seq<Bubble>
    const net: Network.AkonNetwork

    ghost predicate Valid()
      reads this, net
    {
      net.Valid()
    }

    /** `build()`: default identity, an engine that is created but not
        started, and the screen the layout opens on. */
    constructor (initialScreen: string)
      ensures Valid() && fresh(net)
      ensures nodeId == DefaultNodeId && current == initialScreen && bubbles == []
      ensures net.running && net.sockOpen && !net.bound && !net.threadStarted && !net.threadAlive
      ensures net.sent == [] && net.callbacks == []
    {
      nodeId := DefaultNodeId;
      current := initialScreen;
      bubbles := [];
      net := new Network.AkonNetwork();
    }

    /** Takes the normalised identity, starts the engine and switches to the
        chat screen only when the start succeeded. */
    method StartSession(userId: string, bindOk: bool, threadOk: bool)
      requires Valid()
      modifies this, net
      ensures Valid()
      ensures nodeId == NormalizeId(userId)
      ensures current == if old(net.StartSucceeds(bindOk, threadOk)) then ChatScreen else old(current)
      ensures net.threadStarted == (old(net.threadStarted) || old(net.StartSucceeds(bindOk, threadOk)))
      ensures net.threadAlive == (old(net.threadAlive) || old(net.StartSucceeds(bindOk, threadOk)))
      ensures net.running == old(net.running) && net.sockOpen == old(net.sockOpen)
      ensures net.bound == (old(net.bound) || (old(net.sockOpen) && bindOk))
      ensures bubbles == old(bubbles) && net.sent == old(net.sent) && net.callbacks == old(net.callbacks)
    {
      nodeId := NormalizeId(userId);
      var ok := net.Start(bindOk, threadOk);
      if ok {
        current := ChatScreen;
      }
    }

    /** The send button: blank text is ignored; otherwise the text is
        broadcast under this node's identity, and only when the broadcast
        succeeded is one bubble of this node's added and the field cleared. */
    method SendBroadcast(input: TextInput, sendOk: bool)
      requires Valid()
      modifies this, net, input
      ensures Valid()
      ensures var delivered := !Blank(old(input.text)) && old(net.sockOpen) && sendOk;
        net.sent == old(net.sent) + if delivered then [Network.Datagram(Network.Encode(nodeId, old(input.text)), Config.BroadcastAddr, Config.UdpPort)] else []
      ensures var delivered := !Blank(old(input.text)) && old(net.sockOpen) && sendOk;
        bubbles == old(bubbles) + if delivered then [Bubble(old(input.text), nodeId, true)] else []
      ensures var delivered := !Blank(old(input.text)) && old(net.sockOpen) && sendOk;
        input.text == if delivered then "" else old(input.text)
      ensures nodeId == old(nodeId) && current == old(current)
      ensures net.bound == (old(net.bound) || (!Blank(old(input.text)) && old(net.sockOpen)))
      ensures net.running == old(net.running) && net.sockOpen == old(net.sockOpen)
      ensures net.threadStarted == old(net.threadStarted) && net.threadAlive == old(net.threadAlive)
      ensures net.callbacks == old(net.callbacks)
    {
      var text := input.text;
      if Blank(text) {
        return;
      }
      var ok := net.Broadcast(nodeId, text, sendOk);
      if ok {
        bubbles := bubbles + [Bubble(text, nodeId, true)];
        input.text := "";
      }
    }

    /** The delivery callback: a packet from this node adds nothing; any
        other adds one bubble with the parsed sender and body. */
    method OnIncoming(raw: string, ip: string)
      requires Valid()
      modifies this
      ensures Valid()
      ensures bubbles == old(bubbles) + match Decode(nodeId, raw, ip)
        case None => []
        case Some(d) => [Bubble(d.body, d.sender, false)]
      ensures nodeId == old(nodeId) && current == old(current)
    {
      if !FromSelf(nodeId, raw) {
        var sender := SenderOf(raw, ip);
        var content := BodyOf(raw);
        bubbles := bubbles + [Bubble(content, sender, false)];
      }
    }
  }
}
