/**
 * The rating service's tables, held in memory: users, professors, modules, module
 * instances, the professor-teaches-instance join rows and ratings. A row's id is its
 * position in its table; foreign keys are such positions.
 */
module Schema {
  import opened Wrappers
  import opened Sequences

  datatype User = User(username: string, email: string, password: string)
  datatype Professor = Professor(code: string, name: string)
  datatype Module = Module(code: string, name: string)
  /** One offering of a module in a year and semester. */
  datatype ModuleInstance = ModuleInstance(moduleId: nat, year: int, semester: int)
  /** A professor's teaching of one module instance: the unit that is rated. */
  datatype ModuleInstanceProfessor = ModuleInstanceProfessor(instanceId: nat, professorId: nat)
  datatype Rating = Rating(userId: nat, mipId: nat, value: int)

  /** What a query's get() finds: no row (DoesNotExist), one row, or several (MultipleObjectsReturned). */
  datatype Lookup = Missing | Unique(index: nat) | Ambiguous

  function GetBy<T>(s: seq<T>, key: T -> string, k: string): (r: Lookup)
    ensures r.Missing? <==> forall i :: 0 <= i < |s| ==> key(s[i]) != k
    ensures r.Unique? ==> r.index < |s| && key(s[r.index]) == k
    ensures r.Unique? ==> forall i :: 0 <= i < |s| && i != r.index ==> key(s[i]) != k
    ensures r.Ambiguous? ==> exists i, j :: 0 <= i < j < |s| && key(s[i]) == k && key(s[j]) == k
  {
    match First(s, x => key(x) == k)
    case None => Missing
    case Some(i) =>
      var rest := s[i + 1..];
      match First(rest, x => key(x) == k)
      case None =>
        assert forall j :: i < j < |s| ==> s[j] == rest[j - i - 1];
        Unique(i)
      case Some(j) =>
        assert key(s[i + 1 + j]) == k;
        Ambiguous
  }

  /** The positions of the elements of s satisfying p, in increasing order (a filter's result rows). */
  function Matching<T>(s: seq<T>, p: T -> bool): (ix: seq<nat>)
    ensures forall k :: 0 <= k < |ix| ==> ix[k] < |s|
  {
    if s == [] then []
    else Matching(s[..|s| - 1], p) + (if p(s[|s| - 1]) then [|s| - 1] else [])
  }

  /** A filter keeps exactly the rows that satisfy it, each once and in table order. */
  lemma {:induction false} MatchingSpec<T>(s: seq<T>, p: T -> bool)
    ensures var ix := Matching(s, p);
      && (forall k, l :: 0 <= k < l < |ix| ==> ix[k] < ix[l])
      && (forall i :: 0 <= i < |s| ==> (i in ix <==> p(s[i])))
  {
    if s != [] {
      var init := s[..|s| - 1];
      MatchingSpec(init, p);
      var last := if p(s[|s| - 1]) then [|s| - 1] else [];
      MatchingStep(s, p, Matching(init, p), last);
    }
  }

  /** The inductive step of MatchingSpec: the last position is appended exactly when it matches. */
  lemma MatchingStep<T>(s: seq<T>, p: T -> bool, ix: seq<nat>, last: seq<nat>)
    requires s != []
    requires forall k :: 0 <= k < |ix| ==> ix[k] < |s| - 1
    requires forall k, l :: 0 <= k < l < |ix| ==> ix[k] < ix[l]
    requires forall i :: 0 <= i < |s| - 1 ==> (i in ix <==> p(s[..|s| - 1][i]))
    requires last == if p(s[|s| - 1]) then [|s| - 1] else []
    ensures forall k, l :: 0 <= k < l < |ix + last| ==> (ix + last)[k] < (ix + last)[l]
    ensures forall i :: 0 <= i < |s| ==> (i in ix + last <==> p(s[i]))
  {
    var r := ix + last;
    forall i | 0 <= i < |s|
      ensures i in r <==> p(s[i])
    {
      if i < |s| - 1 {
        assert s[..|s| - 1][i] == s[i];
        assert i !in last;
      } else {
        assert i !in ix;
      }
    }
  }

  /** A filter no row satisfies selects nothing. */
  lemma MatchingNone<T>(s: seq<T>, p: T -> bool)
    requires forall i :: 0 <= i < |s| ==> !p(s[i])
    ensures Matching(s, p) == []
  {
    var ix := Matching(s, p);
    MatchingSpec(s, p);
    assert forall k :: 0 <= k < |ix| ==> ix[k] in ix;
  }

  /** Two predicates that agree on every element select the same positions. */
  lemma {:induction false} MatchingAgrees<T>(s: seq<T>, p: T -> bool, q: T -> bool)
    requires forall i :: 0 <= i < |s| ==> p(s[i]) == q(s[i])
    ensures Matching(s, p) == Matching(s, q)
  {
    if s != [] {
      var init := s[..|s| - 1];
      assert forall i :: 0 <= i < |init| ==> init[i] == s[i];
      MatchingAgrees(init, p, q);
    }
  }

  function ValuesAt(ratings: seq<Rating>, ix: seq<nat>): (vs: seq<int>)
    requires forall k :: 0 <= k < |ix| ==> ix[k] < |ratings|
  {
    seq(|ix|, k requires 0 <= k < |ix| => ratings[ix[k]].value)
  }

  datatype Db = Db(
    users: seq<User>,
    professors: seq<Professor>,
    modules: seq<Module>,
    instances: seq<ModuleInstance>,
    mips: seq<ModuleInstanceProfessor>,
    ratings: seq<Rating>)
  {
    /** What the database itself enforces: every foreign key resolves and usernames are unique. */
    predicate Valid()
    {
      && (forall i :: 0 <= i < |instances| ==> instances[i].moduleId < |modules|)
      && (forall i :: 0 <= i < |mips| ==> mips[i].instanceId < |instances| && mips[i].professorId < |professors|)
      && (forall i :: 0 <= i < |ratings| ==> ratings[i].userId < |users| && ratings[i].mipId < |mips|)
      && (forall i, j :: 0 <= i < j < |users| ==> users[i].username != users[j].username)
    }

    /** The invariant that only the rate handler keeps: at most one rating per (user, MIP). */
    predicate OneRatingPerPair()
    {
      forall i, j :: 0 <= i < j < |ratings| ==>
        ratings[i].userId != ratings[j].userId || ratings[i].mipId != ratings[j].mipId
    }

    /** Some user already has this username or this email. */
    predicate UserClash(username: string, email: string)
    {
      exists i :: 0 <= i < |users| && (users[i].username == username || users[i].email == email)
    }

    /** The credential check: the user with this username, if its password matches. */
    function Authenticate(username: string, password: string): (r: Option<nat>)
      ensures r.Some? ==> r.value < |users| && users[r.value].username == username
      ensures r.Some? ==> users[r.value].password == password
    {
      match First(users, (u: User) => u.username == username)
      case None => None
      case Some(i) => if users[i].password == password then Some(i) else None
    }

    /** MIP m teaches the module with this code, in this year and semester, by the professor with this code. */
    predicate MipMatches(m: ModuleInstanceProfessor, moduleCode: string, year: int, semester: int, professorCode: string)
    {
      && m.instanceId < |instances| && m.professorId < |professors|
      && instances[m.instanceId].moduleId < |modules|
      && modules[instances[m.instanceId].moduleId].code == moduleCode
      && instances[m.instanceId].year == year
      && instances[m.instanceId].semester == semester
      && professors[m.professorId].code == professorCode
    }

    /** The first MIP (by id) matching module code, year, semester and professor code. */
    function FindMip(moduleCode: string, year: int, semester: int, professorCode: string): (r: Option<nat>)
      ensures r.None? <==> forall i :: 0 <= i < |mips| ==> !MipMatches(mips[i], moduleCode, year, semester, professorCode)
      ensures r.Some? ==> r.value < |mips| && MipMatches(mips[r.value], moduleCode, year, semester, professorCode)
      ensures r.Some? ==> forall i :: 0 <= i < r.value ==> !MipMatches(mips[i], moduleCode, year, semester, professorCode)
    {
      First(mips, m => MipMatches(m, moduleCode, year, semester, professorCode))
    }

    predicate HasRating(userId: nat, mipId: nat)
    {
      exists i :: 0 <= i < |ratings| && ratings[i].userId == userId && ratings[i].mipId == mipId
    }

    /** Rating r is on a MIP of professor p (the join professor -> MIP -> rating). */
    predicate RatesProfessor(r: Rating, p: nat)
    {
      r.mipId < |mips| && mips[r.mipId].professorId == p
    }

    /** Rating r is on a MIP whose professor and whose instance's module have these codes. */
    predicate RatesPair(r: Rating, professorCode: string, moduleCode: string)
    {
      && r.mipId < |mips|
      && mips[r.mipId].professorId < |professors|
      && professors[mips[r.mipId].professorId].code == professorCode
      && mips[r.mipId].instanceId < |instances|
      && instances[mips[r.mipId].instanceId].moduleId < |modules|
      && modules[instances[mips[r.mipId].instanceId].moduleId].code == moduleCode
    }

    /** The values of all ratings of professor p, in rating order. */
    function ProfessorValues(p: nat): seq<int>
    {
      ValuesAt(ratings, Matching(ratings, r => RatesProfessor(r, p)))
    }

    /** The values of all ratings of this professor code in this module code, over all years and semesters. */
    function PairValues(professorCode: string, moduleCode: string): seq<int>
    {
      ValuesAt(ratings, Matching(ratings, r => RatesPair(r, professorCode, moduleCode)))
    }
  }

  const EmptyDb := Db([], [], [], [], [], [])

  /** With unique usernames, authentication fails exactly when no user has both credentials. */
  lemma AuthenticateComplete(db: Db, username: string, password: string)
    requires db.Valid()
    ensures db.Authenticate(username, password).None? <==>
      forall i :: 0 <= i < |db.users| ==> db.users[i].username != username || db.users[i].password != password
  {
    var first := First(db.users, (u: User) => u.username == username);
    if first.Some? {
      var i := first.value;
      assert forall j :: 0 <= j < |db.users| && j != i ==> db.users[j].username != username by {
        forall j | 0 <= j < |db.users| && j != i
          ensures db.users[j].username != username
        {
          if j < i {
            assert db.users[j].username != db.users[i].username;
          } else {
            assert db.users[i].username != db.users[j].username;
          }
        }
      }
    }
  }

  /** A user registered under a new username is the one login finds, with their password. */
  lemma AuthenticateNewUser(db: Db, u: User)
    requires forall i :: 0 <= i < |db.users| ==> db.users[i].username != u.username
    ensures db.(users := db.users + [u]).Authenticate(u.username, u.password) == Some(|db.users|)
  {
    var users := db.users + [u];
    assert users[|db.users|] == u;
    assert forall i :: 0 <= i < |db.users| ==> users[i] == db.users[i];
  }

  /**
   * Adding rating (u, m) keeps at most one rating per pair exactly when u has not
   * already rated m.
   */
  lemma AddRatingOnePerPair(db: Db, r: Rating)
    requires db.OneRatingPerPair()
    ensures db.(ratings := db.ratings + [r]).OneRatingPerPair() <==> !db.HasRating(r.userId, r.mipId)
  {
    var rs := db.ratings + [r];
    if db.HasRating(r.userId, r.mipId) {
      var i :| 0 <= i < |db.ratings| && db.ratings[i].userId == r.userId && db.ratings[i].mipId == r.mipId;
      assert rs[i] == db.ratings[i] && rs[|rs| - 1] == r;
    } else {
      forall i, j | 0 <= i < j < |rs|
        ensures rs[i].userId != rs[j].userId || rs[i].mipId != rs[j].mipId
      {
        if j == |rs| - 1 {
          assert rs[i] == db.ratings[i];
        } else {
          assert rs[i] == db.ratings[i] && rs[j] == db.ratings[j];
        }
      }
    }
  }

  /**
   * The pair average ignores years and semesters: changing the year or semester of
   * any instance (but not its module) leaves the averaged values unchanged.
   */
  lemma PairValuesIgnoreTerm(db: Db, instances': seq<ModuleInstance>, professorCode: string, moduleCode: string)
    requires |instances'| == |db.instances|
    requires forall i :: 0 <= i < |db.instances| ==> instances'[i].moduleId == db.instances[i].moduleId
    ensures db.(instances := instances').PairValues(professorCode, moduleCode) == db.PairValues(professorCode, moduleCode)
  {
    var db' := db.(instances := instances');
    MatchingAgrees(db.ratings,
      r => db'.RatesPair(r, professorCode, moduleCode),
      r => db.RatesPair(r, professorCode, moduleCode));
  }

  /** A professor linked to no MIP has no ratings to average (view reports null for them). */
  lemma UntaughtHasNoRatings(db: Db, p: nat)
    requires forall m :: 0 <= m < |db.mips| ==> db.mips[m].professorId != p
    ensures db.ProfessorValues(p) == []
  {
    var rated := r => db.RatesProfessor(r, p);
    var ix := Matching(db.ratings, rated);
    assert forall i :: 0 <= i < |db.ratings| ==> !rated(db.ratings[i]);
    MatchingNone(db.ratings, rated);
    assert db.ProfessorValues(p) == ValuesAt(db.ratings, ix);
  }
}
