/**
 * The Bloocoin client: its stored credentials, getReply (request building,
 * credential substitution, the exchange over one socket) and register.
 * The socket is represented by what it delivers (Transport) and the JSON
 * decoder by a parameter; serialisation of the request is not modelled.
 */
module Blooclient {
  import opened Wrappers
  import opened Exceptions
  import opened Commands
  import opened Assembly

  /** A decoded server reply; a fresh one is unsuccessful, with empty message and payload. */
  datatype CmdReply<T> = CmdReply(success: bool, message: string, payload: map<string, T>)

  /** The reply getReply returns when it never receives one. */
  function DefaultReply<T>(): CmdReply<T> {
    CmdReply(false, "", map[])
  }

  /**
   * What the socket to the server does during one call: whether connect
   * succeeds within its wait, whether the write times out (with the
   * message), the chunks successive reads deliver (line terminators already
   * stripped), and whether the read after the last of them times out.
   */
  datatype Transport = Transport(
    connects: bool,
    sendTimeout: Option<string>,
    chunks: seq<string>,
    readTimeout: Option<string>)

  /**
   * NotConnected: connect failed, nothing was sent, the default reply is returned.
   * Replied: a buffer decoded after `received` chunks.
   * NoReplyYet: the chunks ran out with no buffer decoding; the source keeps reading.
   */
  datatype Delivery<T> = NotConnected | Replied(reply: CmdReply<T>, received: nat) | NoReplyYet(buffer: string)

  /** One call: the request that was built and what the socket exchange gave. */
  datatype Exchange<T> = Exchange(request: Request, delivery: Delivery<T>)

  /** The reply getReply hands back, or None while it is still reading. */
  function ReplyOf<T>(d: Delivery<T>): Option<CmdReply<T>> {
    match d
    case NotConnected => Some(DefaultReply())
    case Replied(reply, _) => Some(reply)
    case NoReplyYet(_) => None
  }

  /** The socket half of getReply: connect, send, then the receive loop. */
  function Deliver<T>(net: Transport, decode: string -> Option<CmdReply<T>>): Result<Delivery<T>, Error> {
    if !net.connects then Success(NotConnected)
    else if net.sendTimeout.Some? then Failure(ConnectionTimeout(net.sendTimeout.value))
    else match Assemble(net.chunks, decode)
      case Decoded(reply, k) => Success(Replied(reply, k))
      case Exhausted(buffer) =>
        if net.readTimeout.Some? then Failure(ConnectionTimeout(net.readTimeout.value))
        else Success(NoReplyYet(buffer))
  }

  /** A whole getReply call with resolved credentials: build the request, then exchange it. */
  function Call<T>(command: string, args: map<string, Value>, addr: Value, pwd: Value,
                   net: Transport, decode: string -> Option<CmdReply<T>>): Result<Exchange<T>, Error> {
    match RequestFor(command, args, addr, pwd)
    case Failure(e) => Failure(e)
    case Success(request) =>
      match Deliver(net, decode)
      case Failure(e) => Failure(e)
      case Success(d) => Success(Exchange(request, d))
  }

  /**
   * A command that is not in the catalog fails with InvalidArgument whatever
   * the socket would have done: no connection is made.
   */
  lemma UnknownCommandNeverConnects<T>(command: string, args: map<string, Value>, addr: Value, pwd: Value,
                                       net: Transport, decode: string -> Option<CmdReply<T>>)
    requires command !in Catalog
    ensures Call(command, args, addr, pwd, net, decode) == Failure(InvalidArgument(InvalidCommand))
  {
  }

  /** When connect fails the call returns the default reply: unsuccessful, empty message and payload. */
  lemma NotConnectedGivesDefault<T>(command: string, args: map<string, Value>, addr: Value, pwd: Value,
                                    net: Transport, decode: string -> Option<CmdReply<T>>)
    requires !net.connects
    requires RequestFor(command, args, addr, pwd).Success?
    ensures var r := Call(command, args, addr, pwd, net, decode);
      && r.Success?
      && ReplyOf(r.value.delivery) == Some(CmdReply(false, "", map[]))
  {
  }

  class BloocoinClient {
    /** The server endpoint; fixed for the client's lifetime. */
    const ip: string
    const port: int
    /** The stored credentials; null until setAddrAndPwd. */
    var address: Option<string>
    var pwd: Option<string>

    constructor (ip: string := "server.bloocoin.org", port: int := 3122)
      ensures this.ip == ip && this.port == port
      ensures address == None && pwd == None
    {
      this.ip := ip;
      this.port := port;
      address := None;
      pwd := None;
    }

    function GetAddress(): Option<string>
      reads this
    {
      address
    }

    function GetPwd(): Option<string>
      reads this
    {
      pwd
    }

    method SetAddrAndPwd(address: Option<string>, pwd: Option<string>)
      modifies this
      ensures GetAddress() == address && GetPwd() == pwd
    {
      this.address := address;
      this.pwd := pwd;
    }

    /**
     * getReply(command, args, address, pwd): builds the request (explicit
     * credentials override the stored ones), then, if the socket connects,
     * sends it and reads until a buffer decodes.
     */
    method GetReply<T>(command: string, args: map<string, Value>,
                       net: Transport, decode: string -> Option<CmdReply<T>>,
                       address: Option<string> := None, pwd: Option<string> := None)
      returns (r: Result<Exchange<T>, Error>)
      ensures r == Call(command, args, Resolve(address, this.address), Resolve(pwd, this.pwd), net, decode)
      ensures r.Failure? && r.error.InvalidArgument? <==> RequestFor(command, args, Resolve(address, this.address), Resolve(pwd, this.pwd)).Failure?
      ensures r.Success? && "addr" in r.value.request ==> r.value.request["addr"] == Resolve(address, this.address)
      ensures r.Success? && "pwd" in r.value.request ==> r.value.request["pwd"] == Resolve(pwd, this.pwd)
    {
      var addr := Resolve(address, this.address);
      var pw := Resolve(pwd, this.pwd);
      var request := BuildRequest(command, args, addr, pw);
      if request.Failure? {
        return Failure(request.error);
      }
      RequestShape(command, args, addr, pw);
      if !net.connects {
        return Success(Exchange(request.value, NotConnected));
      }
      if net.sendTimeout.Some? {
        return Failure(ConnectionTimeout(net.sendTimeout.value));
      }
      var assembled := AssembleReply(net.chunks, decode);
      match assembled
      case Decoded(reply, k) =>
        r := Success(Exchange(request.value, Replied(reply, k)));
      case Exhausted(buffer) =>
        if net.readTimeout.Some? {
          r := Failure(ConnectionTimeout(net.readTimeout.value));
        } else {
          r := Success(Exchange(request.value, NoReplyYet(buffer)));
        }
    }

    /**
     * getReply(command, address, pwd): the overload without caller
     * arguments; it fails with InvalidArgument exactly for unknown commands
     * and for send_coin and check.
     */
    method GetReplyNoArgs<T>(command: string, net: Transport, decode: string -> Option<CmdReply<T>>,
                             address: Option<string> := None, pwd: Option<string> := None)
      returns (r: Result<Exchange<T>, Error>)
      ensures r == Call(command, map[], Resolve(address, this.address), Resolve(pwd, this.pwd), net, decode)
      ensures r.Failure? && r.error.InvalidArgument?
          <==> command !in Catalog || command == "send_coin" || command == "check"
    {
      NoArgsFailsExactly(command, Resolve(address, this.address), Resolve(pwd, this.pwd));
      r := GetReply(command, map[], net, decode, address, pwd);
    }

    /**
     * register(addr, pwd): the success flag of the register reply, sent with
     * the given credentials (a null one falls back to the stored one); None
     * while still reading. It never fails with InvalidArgument. `sent` is
     * the request getReply builds and sends for it.
     */
    method Register(addr: Option<string>, pwd: Option<string>, net: Transport, decode: string -> Option<CmdReply<string>>)
      returns (r: Result<Option<bool>, Error>, ghost sent: Request)
      ensures sent == map["cmd" := Str("register"), "addr" := Resolve(addr, this.address), "pwd" := Resolve(pwd, this.pwd)]
      ensures r.Failure? ==> r.error.ConnectionTimeout?
      ensures !net.connects ==> r == Success(Some(false))
      ensures match Deliver(net, decode)
        case Failure(e) => r == Failure(e)
        case Success(d) => r == Success(if ReplyOf(d).Some? then Some(ReplyOf(d).value.success) else None)
    {
      RegisterRequest(Resolve(addr, this.address), Resolve(pwd, this.pwd), map[]);
      var reply := GetReplyNoArgs("register", net, decode, addr, pwd);
      sent := RequestFor("register", map[], Resolve(addr, this.address), Resolve(pwd, this.pwd)).value;
      match reply
      case Failure(e) =>
        r := Failure(e);
      case Success(exchange) =>
        sent := exchange.request;
        var got := ReplyOf(exchange.delivery);
        r := Success(if got.Some? then Some(got.value.success) else None);
    }
  }
}
