/**
 * Tables: the client slots, the server table and the CA certificate store
 * the AT command handlers work on (ESP_ATMod/ESP_ATMod.h:37-44, 63-65,
 * 74-75), and what AT+CIPCLOSE, AT+CIPSERVER and AT+CIPSSLCERT=DELETE do
 * to them (ESP_ATMod/command.cpp).
 */
module Tables {
  import opened Bytes

  // ---------------------------------------------------------------------------
  // Client slots

  /** clientTypes_t. */
  datatype ClientType = TypeTcp | TypeUdp | TypeSsl | TypeNone

  /**
   * client_t: present is client != nullptr, connected what
   * client->connected() answers; the activity time is left out.
   */
  datatype Client = Client(present: bool, connected: bool, clientType: ClientType,
                           sendLength: int, lastAvailableBytes: int)

  /**
   * A slot after stop() and DeleteClient: DeleteClient is not part of this
   * model, and its effect is taken to be that the slot has no client.
   */
  function Released(c: Client): (r: Client)
    ensures !r.present && !r.connected
  {
    c.(present := false, connected := false)
  }

  /** The slot loop of AT+CIPCLOSE for one slot: link 5 closes every link. */
  function AfterClose(c: Client, id: int, link: int): Client
  {
    if (id == link || link == 5) && c.present then Released(c) else c
  }

  /** The whole slot loop of AT+CIPCLOSE. */
  function AfterCloseAll(cs: seq<Client>, link: int): (r: seq<Client>)
    ensures |r| == |cs| && forall i :: 0 <= i < |cs| ==> r[i] == AfterClose(cs[i], i, link)
  {
    seq(|cs|, i requires 0 <= i < |cs| => AfterClose(cs[i], i, link))
  }

  /** Closing every link leaves no slot with a client. */
  lemma CloseAllLinks(c: Client, id: int)
    ensures !AfterClose(c, id, 5).present
  {
  }

  /** Closing one link touches no other slot. */
  lemma CloseOneLink(c: Client, id: int, link: int)
    requires link != 5
    ensures id != link ==> AfterClose(c, id, link) == c
    ensures id == link ==> !AfterClose(c, id, link).present
  {
  }

  /** Some slot holds a client: "link is builded". */
  predicate AnyClient(cs: seq<Client>)
  {
    exists i :: 0 <= i < |cs| && cs[i].present
  }

  /**
   * AT+CIPCLOSE=5 leaves no slot with a client, and closing any other link
   * leaves every other slot as it was.
   */
  lemma CloseAllSlots(cs: seq<Client>, link: int)
    ensures link == 5 ==> !AnyClient(AfterCloseAll(cs, link))
    ensures link != 5 ==> forall i :: 0 <= i < |cs| && i != link ==> AfterCloseAll(cs, link)[i] == cs[i]
  {
  }

  // ---------------------------------------------------------------------------
  // Servers

  /** A WiFiServer: its port and whether its status is other than CLOSED. */
  datatype Server = Server(port: int, open: bool)

  /** The first server from index i on that want accepts, in table order. */
  function FirstServer(ss: seq<Server>, i: nat, want: Server -> bool): (r: Option<nat>)
    requires i <= |ss|
    ensures r.Some? ==> i <= r.value < |ss| && want(ss[r.value])
    ensures r.Some? ==> forall j :: i <= j < r.value ==> !want(ss[j])
    ensures r.None? ==> forall j :: i <= j < |ss| ==> !want(ss[j])
    decreases |ss| - i
  {
    if i == |ss| then None
    else if want(ss[i]) then Some(i)
    else FirstServer(ss, i + 1, want)
  }

  /** A running server AT+CIPSERVER=0 may stop: on the port, or on any port when the port is 0. */
  function Stoppable(port: int): Server -> bool
  {
    (s: Server) => s.open && (s.port == port || port == 0)
  }

  /** A running server on the port. */
  function Running(port: int): Server -> bool
  {
    (s: Server) => s.open && s.port == port
  }

  /** A running server. */
  function Listening(): Server -> bool
  {
    (s: Server) => s.open
  }

  /** A server that is not running. */
  function Idle(): Server -> bool
  {
    (s: Server) => !s.open
  }

  /** The reply of AT+CIPSERVER and the server table it leaves. */
  datatype ServerResult = ServerResult(ok: bool, servers: seq<Server>)

  /**
   * The table rules of AT+CIPSERVER (command.cpp:2123-2160). Stopping
   * closes the first running server that matches, and fails when there is
   * none. Starting fails when a server already runs on the port; otherwise
   * the first idle server begins on the port, and the command fails when
   * it does not start (begins is false). With no idle server the command
   * succeeds and nothing changes.
   */
  function ServerCommand(ss: seq<Server>, stop: bool, port: int, begins: bool): (r: ServerResult)
    ensures |r.servers| == |ss|
  {
    if stop then
      match FirstServer(ss, 0, Stoppable(port))
      case None => ServerResult(false, ss)
      case Some(i) => ServerResult(true, ss[i := ss[i].(open := false)])
    else if FirstServer(ss, 0, Running(port)).Some? then ServerResult(false, ss)
    else
      match FirstServer(ss, 0, Idle())
      case None => ServerResult(true, ss)
      case Some(i) => if begins then ServerResult(true, ss[i := Server(port, true)]) else ServerResult(false, ss)
  }

  /** No two running servers share a port. */
  ghost predicate DistinctPorts(ss: seq<Server>)
  {
    forall i, j :: 0 <= i < |ss| && 0 <= j < |ss| && ss[i].open && ss[j].open && ss[i].port == ss[j].port ==> i == j
  }

  /**
   * AT+CIPSERVER never starts a second server on a port that is already
   * served, and a start that succeeds on an idle server leaves one running
   * on the port.
   */
  lemma ServerCommandKeepsPortsDistinct(ss: seq<Server>, stop: bool, port: int, begins: bool)
    requires DistinctPorts(ss)
    ensures DistinctPorts(ServerCommand(ss, stop, port, begins).servers)
    ensures !stop && ServerCommand(ss, stop, port, begins).ok && FirstServer(ss, 0, Idle()).Some?
            ==> exists k :: 0 <= k < |ss| && Running(port)(ServerCommand(ss, stop, port, begins).servers[k])
  {
    var r := ServerCommand(ss, stop, port, begins);
    if !stop && FirstServer(ss, 0, Running(port)).None? {
      var f := FirstServer(ss, 0, Idle());
      if f.Some? && begins {
        var i := f.value;
        forall j | 0 <= j < |ss| && j != i && r.servers[j].open
          ensures r.servers[j].port != port
        {
          assert !Running(port)(ss[j]);
        }
        assert Running(port)(r.servers[i]);
      }
    }
  }

  // ---------------------------------------------------------------------------
  // The CA certificate store

  /**
   * The first loop of AT+CIPSSLCERT=DELETE,n (command.cpp:2940-2947) over
   * the first entries of the store: every entry whose 1-based number is not
   * n, in order.
   */
  function Kept(store: seq<seq<byte>>, n: int): (r: seq<seq<byte>>)
    ensures |r| == |store| - if 1 <= n <= |store| then 1 else 0
  {
    if store == [] then []
    else Kept(store[..|store| - 1], n) + if |store| != n then [store[|store| - 1]] else []
  }

  /** Kept over a store one entry longer. */
  lemma KeptSnoc(store: seq<seq<byte>>, cert: seq<byte>, n: int)
    ensures Kept(store + [cert], n) == Kept(store, n) + if |store| + 1 != n then [cert] else []
  {
    assert (store + [cert])[..|store|] == store;
  }

  /** A number past the entries read so far keeps them all. */
  lemma {:induction false} KeptBefore(store: seq<seq<byte>>, n: int)
    requires n > |store|
    ensures Kept(store, n) == store
  {
    if store != [] {
      KeptBefore(store[..|store| - 1], n);
    }
  }

  /**
   * Deleting certificate n, for 1 <= n <= count, removes exactly entry n
   * and keeps the others in their order.
   */
  lemma {:induction false} KeptRemovesOne(store: seq<seq<byte>>, n: int)
    requires 1 <= n <= |store|
    ensures Kept(store, n) == store[..n - 1] + store[n..]
  {
    if |store| == n {
      KeptBefore(store[..|store| - 1], n);
      assert store[n..] == [];
    } else {
      var init := store[..|store| - 1];
      KeptRemovesOne(init, n);
      assert init[..n - 1] == store[..n - 1];
      assert init[n..] + [store[|store| - 1]] == store[n..];
    }
  }
}
