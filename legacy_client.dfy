/**
 * The earlier command-line client, aimed at a local development server: login takes the
 * credentials inline, there is no register command but a seed command, every reply is
 * printed verbatim, and rate is sent to the login endpoint.
 */
module LegacyClient {
  import opened Wrappers
  import opened Api
  import opened Shell
  import Views

  const BaseUrl := "http://127.0.0.1:8000/api/"

  datatype Command =
    | Login(username: string, password: string)
    | Logout
    | List
    | View
    | Average(professorCode: string, moduleCode: string)
    | Rate(professorCode: string, moduleCode: string, year: string, semester: string, rating: string)
    | Seed

  function Name(c: Command): string
  {
    match c
    case Login(_, _) => "login"
    case Logout => "logout"
    case List => "list"
    case View => "view"
    case Average(_, _) => "average"
    case Rate(_, _, _, _, _) => "rate"
    case Seed => "seed"
  }

  function Args(c: Command): seq<string>
  {
    match c
    case Login(u, p) => [u, p]
    case Average(p, m) => [p, m]
    case Rate(p, m, y, s, r) => [p, m, y, s, r]
    case _ => []
  }

  /** The number of tokens, command word included, each command takes. */
  const Arity: map<string, nat> :=
    map["login" := 3, "logout" := 1, "list" := 1, "view" := 1, "average" := 3, "rate" := 6, "seed" := 1]

  /** main's dispatch of one tokenised input line. */
  function Parse(parts: seq<string>): (p: Parsed<Command>)
    ensures p.NoCommand? <==> parts == []
    ensures p.Quit? <==> parts != [] && Lower(parts[0]) == "exit"
    ensures p.Unknown? <==> parts != [] && Lower(parts[0]) != "exit" && Lower(parts[0]) !in Arity
    ensures p.Usage? <==> parts != [] && Lower(parts[0]) in Arity && |parts| != Arity[Lower(parts[0])]
    ensures p.Usage? ==> UsageHead(Lower(parts[0])) <= p.message
    ensures p.Cmd? ==> Name(p.command) == Lower(parts[0]) && Args(p.command) == parts[1..]
  {
    if parts == [] then NoCommand else Dispatch(Lower(parts[0]), parts)
  }

  /** The match on the lower-cased command word. */
  function Dispatch(name: string, parts: seq<string>): (p: Parsed<Command>)
    requires parts != []
    ensures !p.NoCommand?
    ensures p.Quit? <==> name == "exit"
    ensures p.Unknown? <==> name != "exit" && name !in Arity
    ensures p.Usage? <==> name in Arity && |parts| != Arity[name]
    ensures p.Usage? ==> UsageHead(name) <= p.message
    ensures p.Cmd? ==> Name(p.command) == name && Args(p.command) == parts[1..]
  {
    var n := |parts|;
    if name == "exit" then Quit
    else if name == "login" then
      if n != 3 then Usage(UsageHead(name) + " [username] [password]") else Cmd(Login(parts[1], parts[2]))
    else if name == "logout" then
      if n != 1 then Usage(UsageHead(name)) else Cmd(Logout)
    else if name == "list" then
      if n != 1 then Usage(UsageHead(name)) else Cmd(List)
    else if name == "view" then
      if n != 1 then Usage(UsageHead(name)) else Cmd(View)
    else if name == "average" then
      if n != 3 then Usage(UsageHead(name) + " [professorCode] [moduleCode]")
      else Cmd(Average(parts[1], parts[2]))
    else if name == "rate" then
      if n != 6 then Usage(UsageHead(name) + " [professorCode] [moduleCode] [year] [semester] [rating]")
      else Cmd(Rate(parts[1], parts[2], parts[3], parts[4], parts[5]))
    else if name == "seed" then
      if n != 1 then Usage(UsageHead(name)) else Cmd(Seed)
    else Unknown
  }

  /** Typing a command's word and arguments gives back that command. */
  lemma ParseCanonical(c: Command)
    ensures Name(c) in Arity && Arity[Name(c)] == 1 + |Args(c)|
    ensures Parse([Name(c)] + Args(c)) == Cmd(c)
  {
    var parts := [Name(c)] + Args(c);
    LowerKeepsLowerCase(Name(c));
    assert parts[0] == Name(c) && parts[1..] == Args(c);
  }

  /** There is no register command here: it is reported as an invalid command. */
  lemma RegisterIsUnknown(parts: seq<string>)
    requires parts != [] && Lower(parts[0]) == "register"
    ensures Parse(parts) == Unknown
  {
    assert Lower(parts[0])[0] == 'r';
  }

  /**
   * The request each handler sends: the reading commands and seed GET, the others POST,
   * and every value sent is one of the command's own arguments.
   */
  function RequestFor(c: Command): (r: Request)
    ensures r.verb == Get <==> c.List? || c.View? || c.Average? || c.Seed?
    ensures forall k :: k in r.fields ==> r.fields[k] in Args(c)
  {
    match c
    case Login(u, p) => Request(Post, BaseUrl + "login", map["username" := u, "password" := p])
    case Logout => Request(Post, BaseUrl + "logout", map[])
    case List => Request(Get, BaseUrl + "list", map[])
    case View => Request(Get, BaseUrl + "view", map[])
    case Average(p, m) => Request(Get, BaseUrl + "average", map["professor_code" := p, "module_code" := m])
    case Rate(p, m, y, s, r) =>
      Request(Post, BaseUrl + "login",
        map["professorCode" := p, "moduleCode" := m, "year" := y, "semester" := s, "rating" := r])
    case Seed => Request(Get, BaseUrl + "seed", map[])
  }

  /** Every request goes to the local server under the command's name, except rate, which goes to login. */
  lemma RequestUrls(c: Command)
    ensures !c.Rate? ==> RequestFor(c).url == BaseUrl + Name(c)
    ensures c.Rate? ==> RequestFor(c).url == BaseUrl + "login" && RequestFor(c).verb == Post
    ensures c.Rate? ==> "username" !in RequestFor(c).fields && "password" !in RequestFor(c).fields
  {
  }

  /**
   * Rate lands on the login handler, which finds no username: whatever is typed and whoever
   * is logged in, the reply is the generic 422 and nothing changes on the server.
   */
  method RateAgainstServer(store: Views.Store, c: Command) returns (out: string)
    requires store.Valid() && c.Rate?
    modifies store
    ensures store.db == old(store.db) && store.session == old(store.session)
    ensures out == ErrorLine(422, "Something went wrong")
  {
    var request := RequestFor(c);
    RequestUrls(c);
    var r := store.Login(request.fields);
    out := Reply(r.status, r.body.text);
  }

  /** Login with the inline credentials, against the server, then logout. */
  method LoginLogoutAgainstServer(store: Views.Store, username: string, password: string)
    returns (loggedIn: string, loggedOut: string)
    requires store.Valid() && username != "" && password != ""
    modifies store
    ensures store.db == old(store.db) && store.session == None
    ensures store.db.Authenticate(username, password).Some? ==> loggedIn == "Success" && loggedOut == "Success"
    ensures store.db.Authenticate(username, password).None? ==>
      loggedIn == ErrorLine(404, "The username or password is incorrect")
      && (old(store.session).None? ==> loggedOut == ErrorLine(403, "User is not authenticated"))
  {
    var r1 := store.Login(RequestFor(Login(username, password)).fields);
    loggedIn := Reply(r1.status, r1.body.text);
    var r2 := store.Logout();
    loggedOut := Reply(r2.status, r2.body.text);
  }
}
