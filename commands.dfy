/**
 * The command catalog of the Bloocoin client and the request getReply builds
 * from it before anything is sent.
 */
module Commands {
  import opened Wrappers
  import opened Exceptions

  /** A value of a request dictionary (a .NET Object, possibly null). */
  datatype Value = Null | Str(text: string) | Int(number: int) | Bool(flag: bool)

  /** The request dictionary: argument name to value. */
  type Request = map<string, Value>

  /** Each command the server handles, with the names of its required arguments, in order. */
  const Catalog: map<string, seq<string>> := map[
    "get_coin" := [],
    "register" := ["addr", "pwd"],
    "send_coin" := ["to", "addr", "pwd", "amount"],
    "my_coins" := ["addr", "pwd"],
    "check" := ["winning_string", "winning_hash", "addr"],
    "transactions" := ["addr", "pwd"],
    "total_coins" := [],
    "check_addr" := ["addr"]
  ]

  /** The arguments filled in from the credentials rather than from the caller's arguments. */
  predicate IsCredential(name: string) {
    name == "addr" || name == "pwd"
  }

  /** A descriptor whose names can all be added to a dictionary that already holds "cmd". */
  ghost predicate AddableDescriptor(names: seq<string>) {
    && "cmd" !in names
    && forall i, j :: 0 <= i < j < |names| ==> names[i] != names[j]
  }

  /** The credential value a call uses: the explicit one when given, otherwise the stored one. */
  function Resolve(explicit: Option<string>, stored: Option<string>): Value {
    match (if explicit.Some? then explicit else stored)
    case Some(s) => Str(s)
    case None => Null
  }

  /** Whether a required argument other than a credential is absent from the caller's arguments. */
  predicate MissingArgument(names: seq<string>, args: map<string, Value>) {
    exists n :: n in names && !IsCredential(n) && n !in args
  }

  /** The value a well-formed request holds under `key`. */
  function Entry(command: string, args: map<string, Value>, addr: Value, pwd: Value, key: string): Value
    requires key == "cmd" || IsCredential(key) || key in args
  {
    if key == "cmd" then Str(command)
    else if key == "addr" then addr
    else if key == "pwd" then pwd
    else args[key]
  }

  /** The request holding "cmd" and the given argument names, each with its entry. */
  function Fields(command: string, args: map<string, Value>, addr: Value, pwd: Value, names: seq<string>): Request
    requires !MissingArgument(names, args)
  {
    map key | key in ["cmd"] + names :: Entry(command, args, addr, pwd, key)
  }

  /** Fields holds exactly "cmd" and the given names. */
  lemma FieldsKeys(command: string, args: map<string, Value>, addr: Value, pwd: Value, names: seq<string>)
    requires !MissingArgument(names, args)
    ensures forall key :: key in Fields(command, args, addr, pwd, names) <==> key == "cmd" || key in names
  {
  }

  /** Adding one more name to the descriptor adds its one entry. */
  lemma FieldsSnoc(command: string, args: map<string, Value>, addr: Value, pwd: Value, names: seq<string>, name: string)
    requires !MissingArgument(names + [name], args)
    ensures !MissingArgument(names, args)
    ensures Fields(command, args, addr, pwd, names + [name])
         == Fields(command, args, addr, pwd, names)[name := Entry(command, args, addr, pwd, name)]
  {
    assert forall n :: n in names ==> n in names + [name];
    var longer := Fields(command, args, addr, pwd, names + [name]);
    var shorter := Fields(command, args, addr, pwd, names)[name := Entry(command, args, addr, pwd, name)];
    assert longer.Keys == shorter.Keys;
  }

  /**
   * The request for `command`, or the InvalidArgument error getReply throws:
   * the reference that BuildRequest is proved against.
   */
  function RequestFor(command: string, args: map<string, Value>, addr: Value, pwd: Value): Result<Request, Error> {
    if command !in Catalog then Failure(InvalidArgument(InvalidCommand))
    else if MissingArgument(Catalog[command], args) then Failure(InvalidArgument(InvalidCommandArgument))
    else Success(Fields(command, args, addr, pwd, Catalog[command]))
  }

  /** The catalog has exactly the eight commands. */
  lemma CatalogCommands()
    ensures Catalog.Keys == {"get_coin", "register", "send_coin", "my_coins", "check", "transactions", "total_coins", "check_addr"}
  {
  }

  lemma CatalogSize()
    ensures |Catalog| == 8
  {
    CatalogCommands();
  }

  /** No descriptor repeats a name or lists "cmd". */
  lemma CatalogAddable(c: string)
    requires c in Catalog
    ensures AddableDescriptor(Catalog[c])
  {
  }

  /**
   * What a successful request holds: exactly "cmd" and the descriptor's
   * names; "cmd" is the command, addr and pwd are the resolved credentials,
   * every other name is copied unchanged from the caller's arguments.
   */
  lemma RequestShape(command: string, args: map<string, Value>, addr: Value, pwd: Value)
    requires RequestFor(command, args, addr, pwd).Success?
    ensures var req := RequestFor(command, args, addr, pwd).value;
      && command in Catalog
      && req.Keys == {"cmd"} + (set n | n in Catalog[command])
      && req["cmd"] == Str(command)
      && forall n :: n in Catalog[command] ==>
           req[n] == (if n == "addr" then addr else if n == "pwd" then pwd else args[n])
  {
    CatalogAddable(command);
  }

  /**
   * With no caller arguments, exactly the commands that need a
   * non-credential argument (send_coin and check) fail, besides unknown ones.
   */
  lemma NoArgsFailsExactly(command: string, addr: Value, pwd: Value)
    ensures RequestFor(command, map[], addr, pwd).Failure?
        <==> command !in Catalog || command == "send_coin" || command == "check"
  {
    if command == "send_coin" {
      assert "to" in Catalog[command];
    } else if command == "check" {
      assert "winning_string" in Catalog[command];
    } else if command in Catalog {
      CatalogCommands();
      assert forall n :: n in Catalog[command] ==> IsCredential(n);
    }
  }

  /**
   * Only the descriptor's non-credential names are read from the caller's
   * arguments: two argument maps that agree on those give the same result.
   */
  lemma ExtraArgumentsIgnored(command: string, args: map<string, Value>, other: map<string, Value>, addr: Value, pwd: Value)
    requires command in Catalog
    requires forall n :: n in Catalog[command] && !IsCredential(n) ==>
      (n in args <==> n in other) && (n in args ==> args[n] == other[n])
    ensures RequestFor(command, args, addr, pwd) == RequestFor(command, other, addr, pwd)
  {
    var names := Catalog[command];
    if !MissingArgument(names, args) {
      assert !MissingArgument(names, other);
      assert Fields(command, args, addr, pwd, names) == Fields(command, other, addr, pwd, names);
    }
  }

  /** The request register sends: the command and the two credentials, nothing else. */
  lemma RegisterRequest(addr: Value, pwd: Value, args: map<string, Value>)
    ensures RequestFor("register", args, addr, pwd)
         == Success(map["cmd" := Str("register"), "addr" := addr, "pwd" := pwd])
  {
    var names := Catalog["register"];
    assert names == ["addr", "pwd"];
    assert !MissingArgument(names, args);
    var req := Fields("register", args, addr, pwd, names);
    var expected := map["cmd" := Str("register"), "addr" := addr, "pwd" := pwd];
    assert req.Keys == {"cmd", "addr", "pwd"} == expected.Keys;
    assert req["cmd"] == expected["cmd"] && req["addr"] == expected["addr"] && req["pwd"] == expected["pwd"];
    assert req == expected;
  }

  /**
   * The foreach of getReply: adds each name of `names`, in order, to `temp`,
   * taking addr and pwd from the resolved credentials and every other name
   * from `args`, and stops with InvalidArgument at the first missing one.
   */
  method AddArguments(command: string, args: map<string, Value>, addr: Value, pwd: Value, names: seq<string>)
    returns (r: Result<Request, Error>)
    requires AddableDescriptor(names)
    ensures r.Failure? <==> MissingArgument(names, args)
    ensures r.Failure? ==> r.error == InvalidArgument(InvalidCommandArgument)
    ensures r.Success? ==> r.value == Fields(command, args, addr, pwd, names)
  {
    var temp: Request := map["cmd" := Str(command)];
    for i := 0 to |names|
      invariant !MissingArgument(names[..i], args)
      invariant temp == Fields(command, args, addr, pwd, names[..i])
    {
      var arg := names[i];
      assert names[..i + 1] == names[..i] + [arg];
      FieldsKeys(command, args, addr, pwd, names[..i]);
      // Dictionary.Add throws on a key already present: no name is added twice.
      assert arg !in temp;
      if arg == "addr" {
        temp := temp[arg := addr];
      } else if arg == "pwd" {
        temp := temp[arg := pwd];
      } else {
        if arg !in args {
          assert MissingArgument(names, args);
          return Failure(InvalidArgument(InvalidCommandArgument));
        }
        temp := temp[arg := args[arg]];
      }
      FieldsSnoc(command, args, addr, pwd, names[..i], arg);
    }
    assert names[..|names|] == names;
    r := Success(temp);
  }

  /** The request getReply builds: the catalog lookup, then AddArguments. */
  method BuildRequest(command: string, args: map<string, Value>, addr: Value, pwd: Value)
    returns (r: Result<Request, Error>)
    ensures r == RequestFor(command, args, addr, pwd)
  {
    if command !in Catalog {
      return Failure(InvalidArgument(InvalidCommand));
    }
    CatalogAddable(command);
    r := AddArguments(command, args, addr, pwd, Catalog[command]);
  }
}
