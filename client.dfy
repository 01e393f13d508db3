/**
 * The command-line client of the hosted service: parsing of the command line, the request
 * each command sends, and how the view and average replies are rendered. The session
 * (its cookie), the network and the prompts' input are not modelled: the answers typed at
 * the prompts are a parameter, and the server's reply is the handler's Response.
 */
module Client {
  import opened Wrappers
  import opened Literals
  import opened Api
  import opened Shell
  import Schema
  import Views
  import Fixture

  /** The host the hosted service runs on. */
  const ServiceHost := "sc21ca.pythonanywhere.com"

  const BaseUrl := "https://" + ServiceHost + "/api/"

  datatype Command =
    | Register
    | Login(host: string)
    | Logout
    | List
    | View
    | Average(professorCode: string, moduleCode: string)
    | Rate(professorCode: string, moduleCode: string, year: string, semester: string, rating: string)

  /** The command word, as matched after lower-casing. */
  function Name(c: Command): string
  {
    match c
    case Register => "register"
    case Login(_) => "login"
    case Logout => "logout"
    case List => "list"
    case View => "view"
    case Average(_, _) => "average"
    case Rate(_, _, _, _, _) => "rate"
  }

  /** The tokens that follow the command word. */
  function Args(c: Command): seq<string>
  {
    match c
    case Login(host) => [host]
    case Average(p, m) => [p, m]
    case Rate(p, m, y, s, r) => [p, m, y, s, r]
    case _ => []
  }

  /** The number of tokens, command word included, each command takes. */
  const Arity: map<string, nat> :=
    map["register" := 1, "login" := 2, "logout" := 1, "list" := 1, "view" := 1, "average" := 3, "rate" := 6]

  /** The rest of login's usage message, after the command word. */
  const LoginFormat := " sc21ca.pythonanywhere.com (omit the preceding 'http://', 'https://' and subsequent '/')"

  /** main's dispatch of one tokenised input line. */
  function Parse(parts: seq<string>): (p: Parsed<Command>)
    ensures p.NoCommand? <==> parts == []
    ensures p.Quit? <==> parts != [] && Lower(parts[0]) == "exit"
    ensures p.Unknown? <==> parts != [] && Lower(parts[0]) != "exit" && Lower(parts[0]) !in Arity
    ensures p.Usage? <==> parts != [] && Lower(parts[0]) in Arity && |parts| != Arity[Lower(parts[0])]
    ensures p.Usage? ==> UsageHead(Lower(parts[0])) <= p.message
    ensures p.Cmd? ==> Name(p.command) == Lower(parts[0]) && Args(p.command) == parts[1..]
  {
    if parts == [] then NoCommand else Dispatch(Lower(parts[0]), parts)
  }

  /** The match on the lower-cased command word. */
  function Dispatch(name: string, parts: seq<string>): (p: Parsed<Command>)
    requires parts != []
    ensures !p.NoCommand?
    ensures p.Quit? <==> name == "exit"
    ensures p.Unknown? <==> name != "exit" && name !in Arity
    ensures p.Usage? <==> name in Arity && |parts| != Arity[name]
    ensures p.Usage? ==> UsageHead(name) <= p.message
    ensures p.Cmd? ==> Name(p.command) == name && Args(p.command) == parts[1..]
  {
    var n := |parts|;
    if name == "exit" then Quit
    else if name == "register" then
      if n != 1 then Usage(UsageHead(name)) else Cmd(Register)
    else if name == "login" then
      if n != 2 then
        Usage(UsageHead(name) + LoginFormat)
      else Cmd(Login(parts[1]))
    else if name == "logout" then
      if n != 1 then Usage(UsageHead(name)) else Cmd(Logout)
    else if name == "list" then
      if n != 1 then Usage(UsageHead(name)) else Cmd(List)
    else if name == "view" then
      if n != 1 then Usage(UsageHead(name)) else Cmd(View)
    else if name == "average" then
      if n != 3 then Usage(UsageHead(name) + " [professorCode] [moduleCode]")
      else Cmd(Average(parts[1], parts[2]))
    else if name == "rate" then
      if n != 6 then Usage(UsageHead(name) + " [professorCode] [moduleCode] [year] [semester] [rating]")
      else Cmd(Rate(parts[1], parts[2], parts[3], parts[4], parts[5]))
    else Unknown
  }

  /** Typing a command's word and arguments gives back that command. */
  lemma ParseCanonical(c: Command)
    ensures Name(c) in Arity && Arity[Name(c)] == 1 + |Args(c)|
    ensures Parse([Name(c)] + Args(c)) == Cmd(c)
  {
    var parts := [Name(c)] + Args(c);
    LowerKeepsLowerCase(Name(c));
    assert parts[0] == Name(c) && parts[1..] == Args(c);
  }

  /** The command word is case-insensitive. */
  lemma ParseIgnoresCase(parts: seq<string>, word: string)
    requires parts != [] && Lower(word) == Lower(parts[0])
    ensures Parse([word] + parts[1..]) == Parse(parts)
  {
    var other := [word] + parts[1..];
    assert other[0] == word && other[1..] == parts[1..] && |other| == |parts|;
  }

  /** The answers typed at the username, email and password prompts. */
  datatype Prompts = Prompts(username: string, email: string, password: string)

  /**
   * The request each handler sends: the reading commands GET, the others POST, and every
   * value sent is one the user typed.
   */
  function RequestFor(c: Command, typed: Prompts): (r: Request)
    ensures r.verb == Get <==> c.List? || c.View? || c.Average?
    ensures forall k :: k in r.fields ==> r.fields[k] in Args(c) || r.fields[k] in [typed.username, typed.email, typed.password]
    ensures "password" in r.fields <==> c.Register? || c.Login?
  {
    match c
    case Register =>
      Request(Post, BaseUrl + "register",
        map["username" := typed.username, "email" := typed.email, "password" := typed.password])
    case Login(host) =>
      Request(Post, "http://" + host + "/api/login", map["username" := typed.username, "password" := typed.password])
    case Logout => Request(Post, BaseUrl + "logout", map[])
    case List => Request(Get, BaseUrl + "list", map[])
    case View => Request(Get, BaseUrl + "view", map[])
    case Average(p, m) => Request(Get, BaseUrl + "average", map["professor_code" := p, "module_code" := m])
    case Rate(p, m, y, s, r) =>
      Request(Post, BaseUrl + "rate",
        map["professorCode" := p, "moduleCode" := m, "year" := y, "semester" := s, "rating" := r])
  }

  /**
   * Every command but login goes to the configured service under its own name; login goes
   * over plain HTTP to whatever host was typed, never to the configured base URL.
   */
  lemma RequestUrls(c: Command, typed: Prompts)
    ensures var url := RequestFor(c, typed).url;
      && (!c.Login? ==> url == BaseUrl + Name(c))
      && (c.Login? ==> url == "http://" + c.host + "/api/login" && !(BaseUrl <= url))
  {
    var url := RequestFor(c, typed).url;
    if c.Login? {
      assert url[4] == ':' && BaseUrl[4] == 's';
    }
  }

  /**
   * The rate request names its codes professorCode and moduleCode, while the server reads
   * professor_code and module_code: the server never finds its fields.
   */
  lemma RateFieldsMissServer(c: Command, typed: Prompts)
    requires c.Rate?
    ensures !Views.RateFieldsPresent(RequestFor(c, typed).fields)
    ensures RequestFor(c, typed).fields.Keys == {"professorCode", "moduleCode", "year", "semester", "rating"}
  {
  }

  /** A rate command, whatever it says, is refused: 403 when logged out, the generic 422 otherwise. */
  method RateAgainstServer(store: Views.Store, c: Command, typed: Prompts) returns (out: string)
    requires store.Valid() && c.Rate?
    modifies store
    ensures store.db == old(store.db) && store.session == old(store.session)
    ensures old(store.session).None? ==> out == ErrorLine(403, "User is not authenticated")
    ensures old(store.session).Some? ==> out == ErrorLine(422, "Something went wrong")
  {
    var request := RequestFor(c, typed);
    RateFieldsMissServer(c, typed);
    var r := store.Rate(request.fields);
    out := Reply(r.status, r.body.text);
  }

  /**
   * Registering and then logging in with the same answers, against the server. Login is
   * typed with the service's own host, so its plain-HTTP request reaches the server that
   * register reached over HTTPS.
   */
  method RegisterThenLogin(store: Views.Store, host: string, typed: Prompts) returns (registered: string, again: string, loggedIn: string)
    requires store.Valid()
    requires typed.username != "" && typed.email != "" && typed.password != ""
    requires !store.db.UserClash(typed.username, typed.email)
    requires host == ServiceHost
    modifies store
    ensures registered == "Success" && loggedIn == "Success"
    ensures again == ErrorLine(422, "A user with the provided credentials already exists")
    ensures store.session == Some(|old(store.db).users|)
  {
    var form := RequestFor(Register, typed).fields;
    assert form["username"] == typed.username && form["email"] == typed.email && form["password"] == typed.password;
    var r1 := store.Register(form);
    registered := Reply(r1.status, r1.body.text);
    var last := |store.db.users| - 1;
    assert store.db.users[last].username == typed.username;
    assert store.db.UserClash(typed.username, typed.email);
    var r2 := store.Register(form);
    again := Reply(r2.status, r2.body.text);
    Schema.AuthenticateNewUser(old(store.db), Schema.User(typed.username, typed.email, typed.password));
    var r3 := store.Login(RequestFor(Login(host), typed).fields);
    loggedIn := Reply(r3.status, r3.body.text);
  }

  /** '*' * n: n stars, none for a non-positive n. */
  function Stars(n: int): (s: string)
    ensures |s| == (if n > 0 then n else 0)
    ensures forall i :: 0 <= i < |s| ==> s[i] == '*'
  {
    if n <= 0 then "" else Stars(n - 1) + "*"
  }

  /** The length of the run of '*' that ends s: how a reader counts the stars printed. */
  function TrailingStars(s: string): nat
  {
    if s != [] && s[|s| - 1] == '*' then TrailingStars(s[..|s| - 1]) + 1 else 0
  }

  /** Stars printed after text that does not end in a star read back as the rating. */
  lemma {:induction false} TrailingStarsAfter(text: string, n: int)
    requires text != [] && text[|text| - 1] != '*'
    ensures TrailingStars(text + Stars(n)) == (if n > 0 then n else 0)
  {
    if n > 0 {
      var s := text + Stars(n);
      assert s[..|s| - 1] == text + Stars(n - 1);
      TrailingStarsAfter(text, n - 1);
    } else {
      assert text + Stars(n) == text;
    }
  }

  /** One line of the view output: the average as stars, or a no-ratings notice. */
  function ViewLine(row: ProfessorRating): (line: string)
    ensures row.averageRating.Some? ==>
      && "The rating of Professor " <= line
      && TrailingStars(line) == (if row.averageRating.value > 0 then row.averageRating.value else 0)
    ensures row.averageRating.None? ==> "No ratings exist for Professor " <= line && TrailingStars(line) == 0
  {
    var name, code := row.professorName, row.professorCode;
    match row.averageRating
    case Some(n) =>
      var text := "The rating of Professor " + name + " (" + code + ") is ";
      TrailingStarsAfter(text, n);
      text + Stars(n)
    case None =>
      var line := "No ratings exist for Professor " + name + " (" + code + ")";
      assert line[|line| - 1] == ')';
      line
  }

  function ViewLines(rows: seq<ProfessorRating>): seq<string>
  {
    seq(|rows|, i requires 0 <= i < |rows| => ViewLine(rows[i]))
  }

  /** "\n".join(lines). */
  function JoinLines(lines: seq<string>): string
  {
    if lines == [] then ""
    else if |lines| == 1 then lines[0]
    else JoinLines(lines[..|lines| - 1]) + "\n" + lines[|lines| - 1]
  }

  /** handle_view: one line per professor, in the server's order, or the error line. */
  method RenderView(r: Response) returns (out: string)
    requires r.status == 200 ==> r.body.ProfessorList?
    requires r.status != 200 ==> r.body.Text?
    ensures r.status != 200 ==> out == ErrorLine(r.status, r.body.text)
    ensures r.status == 200 ==> out == JoinLines(ViewLines(r.body.professors))
  {
    if r.status != 200 {
      return ErrorLine(r.status, r.body.text);
    }
    var rows := r.body.professors;
    var lines: seq<string> := [];
    for k := 0 to |rows|
      invariant lines == ViewLines(rows)[..k]
    {
      lines := lines + [ViewLine(rows[k])];
    }
    assert lines == ViewLines(rows);
    out := JoinLines(lines);
  }

  /** The header row of the list table. */
  const ListHeader := ["Module Code", "Module Name", "Year", "Semester", "Taught by"]

  /** One line of the "Taught by" cell. */
  function TeacherEntry(t: TeacherRow): string
  {
    t.professorCode + ", " + t.professorName
  }

  /** The table row of one module instance; the "Taught by" cell lists its teachers one per line. */
  function ListCells(row: InstanceRow): (cells: seq<string>)
    ensures |cells| == |ListHeader|
    ensures IsIntLiteral(cells[2]) && IntValue(cells[2]) == row.year
    ensures IsIntLiteral(cells[3]) && IntValue(cells[3]) == row.semester
  {
    ShowIntValue(row.year);
    ShowIntValue(row.semester);
    [row.moduleCode, row.moduleName, ShowInt(row.year), ShowInt(row.semester),
     JoinLines(TeacherEntries(row.taughtBy))]
  }

  function TeacherEntries(teachers: seq<TeacherRow>): seq<string>
  {
    seq(|teachers|, i requires 0 <= i < |teachers| => TeacherEntry(teachers[i]))
  }

  datatype ListOutput = ErrorText(line: string) | Table(rows: seq<seq<string>>)

  /** handle_list up to the drawing: the header, then one row per instance in the server's order. */
  method RenderList(r: Response) returns (out: ListOutput)
    requires r.status == 200 ==> r.body.InstanceList?
    requires r.status != 200 ==> r.body.Text?
    ensures r.status != 200 ==> out == ErrorText(ErrorLine(r.status, r.body.text))
    ensures r.status == 200 ==> out.Table? && |out.rows| == 1 + |r.body.instances| && out.rows[0] == ListHeader
    ensures r.status == 200 ==> forall i :: 0 <= i < |r.body.instances| ==> out.rows[i + 1] == ListCells(r.body.instances[i])
  {
    if r.status != 200 {
      return ErrorText(ErrorLine(r.status, r.body.text));
    }
    var data := r.body.instances;
    var rows := [ListHeader];
    for k := 0 to |data|
      invariant |rows| == 1 + k && rows[0] == ListHeader
      invariant forall i :: 0 <= i < k ==> rows[i + 1] == ListCells(data[i])
    {
      var row := data[k];
      var professors: seq<string> := [];
      for j := 0 to |row.taughtBy|
        invariant professors == TeacherEntries(row.taughtBy)[..j]
      {
        professors := professors + [TeacherEntry(row.taughtBy[j])];
      }
      assert professors == TeacherEntries(row.taughtBy);
      rows := rows + [[row.moduleCode, row.moduleName, ShowInt(row.year), ShowInt(row.semester), JoinLines(professors)]];
    }
    out := Table(rows);
  }

  /** handle_average's output: the pair's average as stars, or "Rating unavailable". */
  function AverageText(r: Response): (out: string)
    requires r.status == 200 ==> r.body.PairAverage?
    requires r.status != 200 ==> r.body.Text?
    ensures r.status != 200 ==> out == ErrorLine(r.status, r.body.text)
    ensures r.status == 200 && r.body.pair.averageRating.None? ==> out == "Rating unavailable"
    ensures r.status == 200 && r.body.pair.averageRating.Some? ==>
      var n := r.body.pair.averageRating.value;
      "The rating of Professor " <= out && TrailingStars(out) == (if n > 0 then n else 0)
  {
    if r.status != 200 then ErrorLine(r.status, r.body.text)
    else
      var p := r.body.pair;
      match p.averageRating
      case None => "Rating unavailable"
      case Some(n) =>
        var text := "The rating of Professor " + p.professorName + " (" + p.professorCode + ") in module "
          + p.moduleName + " (" + p.moduleCode + ") is ";
        TrailingStarsAfter(text, n);
        text + Stars(n)
  }

  /** Asking the seeded server for Roy Ruddle in Info Vis prints two stars. */
  lemma SeedAverageShown(user1: string, user2: string)
    ensures var out := AverageText(Views.AverageView(Fixture.Seeded(true, user1, user2),
                                                     map["professor_code" := "RR", "module_code" := "IV"]));
      "The rating of Professor " <= out && TrailingStars(out) == 2
  {
    Fixture.SeedAverageResponse(user1, user2);
  }
}
