/**
 * The seven request handlers of the rating API over an in-memory store. The store's
 * tables and the logged-in user of the (single) client session are the only state;
 * register, login, logout and rate change it, list, view and average only read it.
 */
module Views {
  import opened Wrappers
  import opened Schema
  import opened Api
  import opened Rounding
  import opened Literals

  /** The fields rate reads from its POST body; an absent one raises KeyError. */
  predicate RateFieldsPresent(form: Form)
  {
    && "professor_code" in form && "module_code" in form
    && "year" in form && "semester" in form && "rating" in form
  }

  /** All five rate fields present and non-empty. */
  predicate RateFieldsFilled(form: Form)
  {
    && RateFieldsPresent(form)
    && form["professor_code"] != "" && form["module_code"] != ""
    && form["year"] != "" && form["semester"] != "" && form["rating"] != ""
  }

  /**
   * The conversions rate survives before its lookups: round(float()) of the rating, which
   * raises on text float() refuses and, with OverflowError, on a value float() makes
   * infinite; and the integer coercion the query applies to year and semester.
   */
  predicate RateNumbersParse(form: Form)
    requires RateFieldsPresent(form)
  {
    && IsFloatLiteral(form["rating"]) && !FloatOverflows(form["rating"])
    && ParseInt(form["year"]).Some? && ParseInt(form["semester"]).Some?
  }

  /** What an SQLite INTEGER column holds; Python's sqlite3 raises OverflowError for any other int. */
  predicate FitsInt64(v: int)
  {
    -0x8000_0000_0000_0000 <= v < 0x8000_0000_0000_0000
  }

  /** The MIP a well-formed rate request designates, if any. */
  function RateTarget(db: Db, form: Form): Option<nat>
    requires RateFieldsPresent(form) && RateNumbersParse(form)
  {
    db.FindMip(form["module_code"], ParseInt(form["year"]).value, ParseInt(form["semester"]).value,
      form["professor_code"])
  }

  class Store {
    var db: Db
    /** The user the client's session is logged in as. */
    var session: Option<nat>

    ghost predicate Valid()
      reads this
    {
      db.Valid() && (session.Some? ==> session.value < |db.users|)
    }

    constructor ()
      ensures Valid() && db == EmptyDb && session == None
    {
      db := EmptyDb;
      session := None;
    }

    /** create_user(...).save(): the database refuses a username that is taken. */
    method AddUser(u: User) returns (id: nat)
      requires Valid()
      requires forall i :: 0 <= i < |db.users| ==> db.users[i].username != u.username
      modifies this
      ensures Valid() && session == old(session)
      ensures id == |old(db).users| && db == old(db).(users := old(db).users + [u])
    {
      id := |db.users|;
      db := db.(users := db.users + [u]);
    }

    method AddRating(r: Rating) returns (id: nat)
      requires Valid() && r.userId < |db.users| && r.mipId < |db.mips|
      modifies this
      ensures Valid() && session == old(session)
      ensures id == |old(db).ratings| && db == old(db).(ratings := old(db).ratings + [r])
    {
      id := |db.ratings|;
      db := db.(ratings := db.ratings + [r]);
    }

    /** POST register {username, email, password}. */
    method Register(form: Form) returns (r: Response)
      requires Valid()
      modifies this
      ensures Valid() && session == old(session)
      ensures r.status == 200 || r.status == 422
      ensures r.status != 200 ==> db == old(db)
      ensures !("username" in form && "email" in form && "password" in form) ==> r == SomethingWentWrong
      ensures "username" in form && "email" in form && "password" in form ==>
        var username, email, password := form["username"], form["email"], form["password"];
        && (username == "" || email == "" || password == "" ==> r == MissingFields)
        && (username != "" && email != "" && password != "" ==>
              if old(db).UserClash(username, email) then r == UserExists
              else r == Success && db == old(db).(users := old(db).users + [User(username, email, password)]))
    {
      if !("username" in form && "email" in form && "password" in form) {
        return SomethingWentWrong;
      }
      var username, email, password := form["username"], form["email"], form["password"];
      if username == "" || email == "" || password == "" {
        return MissingFields;
      }
      if db.UserClash(username, email) {
        return UserExists;
      }
      var _ := AddUser(User(username, email, password));
      r := Success;
    }

    /** POST login {username, password}. */
    method Login(form: Form) returns (r: Response)
      requires Valid()
      modifies this
      ensures Valid() && db == old(db)
      ensures r.status == 200 || r.status == 404 || r.status == 422
      ensures r.status != 200 ==> session == old(session)
      ensures !("username" in form && "password" in form) ==> r == SomethingWentWrong
      ensures "username" in form && "password" in form ==>
        var username, password := form["username"], form["password"];
        && (username == "" || password == "" ==> r == MissingFields)
        && (username != "" && password != "" ==>
              match old(db).Authenticate(username, password)
              case None => r == BadCredentials
              case Some(id) => r == Success && session == Some(id))
    {
      if !("username" in form && "password" in form) {
        return SomethingWentWrong;
      }
      var username, password := form["username"], form["password"];
      if username == "" || password == "" {
        return MissingFields;
      }
      var user := db.Authenticate(username, password);
      if user.None? {
        return BadCredentials;
      }
      session := user;
      r := Success;
    }

    /** POST logout. */
    method Logout() returns (r: Response)
      requires Valid()
      modifies this
      ensures Valid() && db == old(db) && session == None
      ensures old(session).None? ==> r == NotAuthenticated
      ensures old(session).Some? ==> r == Success
    {
      if session.None? {
        return NotAuthenticated;
      }
      session := None;
      r := Success;
    }

    /** POST rate {professor_code, module_code, year, semester, rating}. */
    method Rate(form: Form) returns (r: Response)
      requires Valid()
      modifies this
      ensures Valid() && session == old(session)
      ensures old(db).OneRatingPerPair() ==> db.OneRatingPerPair()
      ensures r.status == 200 || r.status == 403 || r.status == 404 || r.status == 422
      ensures r.status != 200 ==> db == old(db)
      ensures old(session).None? ==> r == NotAuthenticated
      ensures old(session).Some? && !RateFieldsPresent(form) ==> r == SomethingWentWrong
      ensures old(session).Some? && RateFieldsPresent(form) && !RateFieldsFilled(form) ==> r == MissingFields
      ensures old(session).Some? && RateFieldsFilled(form) && !RateNumbersParse(form) ==> r == SomethingWentWrong
      ensures old(session).Some? && RateFieldsFilled(form) && RateNumbersParse(form) ==>
        match RateTarget(old(db), form)
        case None => r == NoSuchInstance
        case Some(mip) =>
          if old(db).HasRating(old(session).value, mip) then r == AlreadyRated
          else match ParseInt(form["rating"])
            case None => r == SomethingWentWrong
            case Some(v) =>
              if !FitsInt64(v) then r == SomethingWentWrong
              else r == Added && db == old(db).(ratings := old(db).ratings + [Rating(old(session).value, mip, v)])
    {
      if session.None? {
        return NotAuthenticated;
      }
      if !RateFieldsPresent(form) {
        return SomethingWentWrong;
      }
      if !RateFieldsFilled(form) {
        return MissingFields;
      }
      // float() raising ValueError, or the query failing to coerce year or semester
      if !RateNumbersParse(form) {
        return SomethingWentWrong;
      }
      var mip := RateTarget(db, form);
      if mip.None? {
        return NoSuchInstance;
      }
      if db.HasRating(session.value, mip.value) {
        return AlreadyRated;
      }
      // the raw field is stored, so saving coerces it with int() and binds it as a 64-bit INTEGER
      var value := ParseInt(form["rating"]);
      if value.None? || !FitsInt64(value.value) {
        return SomethingWentWrong;
      }
      var rating := Rating(session.value, mip.value, value.value);
      if db.OneRatingPerPair() {
        AddRatingOnePerPair(db, rating);
      }
      var _ := AddRating(rating);
      r := Added;
    }
  }

  /** The teachers of instance i as list reports them: one row per MIP of i, among the first n MIPs. */
  function TaughtByUpTo(db: Db, i: nat, n: nat): (rows: seq<TeacherRow>)
    requires n <= |db.mips|
    ensures forall t :: t in rows <==>
      exists m :: 0 <= m < n && db.mips[m].instanceId == i && db.mips[m].professorId < |db.professors| &&
        t == TeacherRow(db.professors[db.mips[m].professorId].name, db.professors[db.mips[m].professorId].code)
  {
    if n == 0 then []
    else
      var m := db.mips[n - 1];
      TaughtByUpTo(db, i, n - 1) +
        if m.instanceId == i && m.professorId < |db.professors|
        then [TeacherRow(db.professors[m.professorId].name, db.professors[m.professorId].code)]
        else []
  }

  function TaughtBy(db: Db, i: nat): seq<TeacherRow>
  {
    TaughtByUpTo(db, i, |db.mips|)
  }

  /** GET list. */
  method ListView(db: Db) returns (r: Response)
    requires db.Valid()
    ensures |db.instances| == 0 ==> r == NoInstances
    ensures |db.instances| > 0 ==> r.status == 200 && r.body.InstanceList? && |r.body.instances| == |db.instances|
    ensures |db.instances| > 0 ==> forall i :: 0 <= i < |db.instances| ==>
      var inst := db.instances[i];
      r.body.instances[i] == InstanceRow(db.modules[inst.moduleId].code, db.modules[inst.moduleId].name,
        inst.year, inst.semester, TaughtBy(db, i))
  {
    if |db.instances| == 0 {
      return NoInstances;
    }
    var data: seq<InstanceRow> := [];
    var i := 0;
    while i < |db.instances|
      invariant i <= |db.instances| && |data| == i
      invariant forall k :: 0 <= k < i ==>
        var inst := db.instances[k];
        data[k] == InstanceRow(db.modules[inst.moduleId].code, db.modules[inst.moduleId].name,
          inst.year, inst.semester, TaughtBy(db, k))
    {
      var taughtBy: seq<TeacherRow> := [];
      var m := 0;
      while m < |db.mips|
        invariant m <= |db.mips| && taughtBy == TaughtByUpTo(db, i, m)
      {
        if db.mips[m].instanceId == i {
          var professor := db.professors[db.mips[m].professorId];
          taughtBy := taughtBy + [TeacherRow(professor.name, professor.code)];
        }
        m := m + 1;
      }
      var inst := db.instances[i];
      data := data + [InstanceRow(db.modules[inst.moduleId].code, db.modules[inst.moduleId].name,
        inst.year, inst.semester, taughtBy)];
      i := i + 1;
    }
    r := Response(200, InstanceList(data));
  }

  /** GET view. */
  method ViewView(db: Db) returns (r: Response)
    ensures |db.professors| == 0 ==> r == NoProfessors
    ensures |db.professors| > 0 ==> r.status == 200 && r.body.ProfessorList? && |r.body.professors| == |db.professors|
    ensures |db.professors| > 0 ==> forall i :: 0 <= i < |db.professors| ==>
      r.body.professors[i] ==
        ProfessorRating(db.professors[i].name, db.professors[i].code, MeanRounded(db.ProfessorValues(i)))
  {
    if |db.professors| == 0 {
      return NoProfessors;
    }
    var data: seq<ProfessorRating> := [];
    for i := 0 to |db.professors|
      invariant |data| == i
      invariant forall k :: 0 <= k < i ==>
        data[k] == ProfessorRating(db.professors[k].name, db.professors[k].code, MeanRounded(db.ProfessorValues(k)))
    {
      var professor := db.professors[i];
      data := data + [ProfessorRating(professor.name, professor.code, MeanRounded(db.ProfessorValues(i)))];
    }
    r := Response(200, ProfessorList(data));
  }

  /** request.GET.get(key), with an absent key read as the (equally falsy) empty string. */
  function Param(query: Form, key: string): (r: string)
    ensures r != "" <==> key in query && query[key] != ""
    ensures r != "" ==> r == query[key]
  {
    if key in query then query[key] else ""
  }

  /** GET average?professor_code&module_code. */
  function AverageView(db: Db, query: Form): (r: Response)
    ensures r.status == 200 || r.status == 404 || r.status == 422
    ensures Param(query, "professor_code") == "" || Param(query, "module_code") == "" ==> r == MissingFields
    ensures Param(query, "professor_code") != "" && Param(query, "module_code") != "" &&
      (forall i :: 0 <= i < |db.professors| ==> db.professors[i].code != Param(query, "professor_code"))
      ==> r == UnknownProfessorOrModule
    ensures r.status == 200 ==> r.body.PairAverage?
    ensures r.status == 200 ==>
      && r.body.pair.professorCode == Param(query, "professor_code")
      && r.body.pair.moduleCode == Param(query, "module_code")
      && r.body.pair.averageRating ==
           MeanRounded(db.PairValues(Param(query, "professor_code"), Param(query, "module_code")))
    ensures r.status == 200 ==>
      exists p, m :: 0 <= p < |db.professors| && 0 <= m < |db.modules|
        && db.professors[p].code == Param(query, "professor_code")
        && db.modules[m].code == Param(query, "module_code")
        && r.body.pair.professorName == db.professors[p].name
        && r.body.pair.moduleName == db.modules[m].name
  {
    var professorCode, moduleCode := Param(query, "professor_code"), Param(query, "module_code");
    if professorCode == "" || moduleCode == "" then MissingFields
    else
      var average := MeanRounded(db.PairValues(professorCode, moduleCode));
      match GetBy(db.professors, (p: Professor) => p.code, professorCode)
      case Missing => UnknownProfessorOrModule
      case Ambiguous => SomethingWentWrong
      case Unique(p) =>
        match GetBy(db.modules, (m: Module) => m.code, moduleCode)
        case Missing => UnknownProfessorOrModule
        case Ambiguous => SomethingWentWrong
        case Unique(m) =>
          Response(200, PairAverage(PairRating(db.professors[p].name, db.professors[p].code,
            db.modules[m].name, db.modules[m].code, average)))
  }

  /** Professor codes and module codes each identify one row. */
  predicate CodesUnique(db: Db)
  {
    && (forall i, j :: 0 <= i < j < |db.professors| ==> db.professors[i].code != db.professors[j].code)
    && (forall i, j :: 0 <= i < j < |db.modules| ==> db.modules[i].code != db.modules[j].code)
  }

  /**
   * With unique codes, average answers 200 exactly when both codes are given and
   * both exist, and 404 exactly when both are given and one of them does not exist.
   */
  lemma AverageViewStatus(db: Db, query: Form)
    requires CodesUnique(db)
    ensures var professorCode, moduleCode := Param(query, "professor_code"), Param(query, "module_code");
      var known := (exists i :: 0 <= i < |db.professors| && db.professors[i].code == professorCode) &&
                   (exists j :: 0 <= j < |db.modules| && db.modules[j].code == moduleCode);
      && (AverageView(db, query).status == 200 <==> professorCode != "" && moduleCode != "" && known)
      && (AverageView(db, query).status == 404 <==> professorCode != "" && moduleCode != "" && !known)
  {
    var professorCode, moduleCode := Param(query, "professor_code"), Param(query, "module_code");
    var byProfessor := GetBy(db.professors, (p: Professor) => p.code, professorCode);
    var byModule := GetBy(db.modules, (m: Module) => m.code, moduleCode);
  }
}
