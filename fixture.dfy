/**
 * The demo data of the database reset script: four professors, three modules, four
 * module instances and five teaching links, optionally two users and three ratings.
 * The two usernames the script draws at random are parameters here.
 */
module Fixture {
  import opened Wrappers
  import opened Schema
  import opened Api
  import opened Rounding
  import opened Views

  const RoyRuddle := Professor("RR", "Roy Ruddle")
  const JohnStell := Professor("JS", "John Stell")
  const AmmarAlsalka := Professor("AA", "Ammar Alsalka")
  const OwenJohnson := Professor("OJ", "Owen Johnson")
  const InfoVis := Module("IV", "Info Vis")
  const DataVis := Module("DV", "Data Vis")
  const WebServices := Module("WS", "Web Services")
  const SeedEmail := "test@test.com"

  /** The tables seed() leaves behind when it runs on an empty database. */
  function Seeded(withRatings: bool, user1: string, user2: string): Db
  {
    var base := Db(
      [],
      [RoyRuddle, JohnStell, AmmarAlsalka, OwenJohnson],
      [InfoVis, DataVis, WebServices],
      [ModuleInstance(0, 2024, 1), ModuleInstance(0, 2023, 1), ModuleInstance(1, 2024, 2), ModuleInstance(2, 2024, 2)],
      [ModuleInstanceProfessor(0, 0), ModuleInstanceProfessor(1, 0), ModuleInstanceProfessor(0, 3),
       ModuleInstanceProfessor(2, 0), ModuleInstanceProfessor(3, 2)],
      []);
    if !withRatings then base
    else base.(
      users := [User(user1, SeedEmail, "password"), User(user2, SeedEmail, "password")],
      ratings := [Rating(0, 0, 1), Rating(1, 1, 3), Rating(1, 3, 5)])
  }

  /**
   * seed(ratings) run on an empty database: the script's record
   * constructions and saves, in the script's order. Each save appends a row, whose id
   * is its position.
   */
  method Seed(withRatings: bool, user1: string, user2: string) returns (db: Db)
    requires user1 != user2
    ensures db == Seeded(withRatings, user1, user2)
    ensures db.Valid() && db.OneRatingPerPair()
  {
    db := EmptyDb;
    var rr := |db.professors|;
    db := db.(professors := db.professors + [RoyRuddle]);
    var js := |db.professors|;
    db := db.(professors := db.professors + [JohnStell]);
    var aa := |db.professors|;
    db := db.(professors := db.professors + [AmmarAlsalka]);
    var oj := |db.professors|;
    db := db.(professors := db.professors + [OwenJohnson]);
    var iv := |db.modules|;
    db := db.(modules := db.modules + [InfoVis]);
    var dv := |db.modules|;
    db := db.(modules := db.modules + [DataVis]);
    var ws := |db.modules|;
    db := db.(modules := db.modules + [WebServices]);
    var iv1 := |db.instances|;
    db := db.(instances := db.instances + [ModuleInstance(iv, 2024, 1)]);
    var iv2 := |db.instances|;
    db := db.(instances := db.instances + [ModuleInstance(iv, 2023, 1)]);
    var dvInstance := |db.instances|;
    db := db.(instances := db.instances + [ModuleInstance(dv, 2024, 2)]);
    var wsInstance := |db.instances|;
    db := db.(instances := db.instances + [ModuleInstance(ws, 2024, 2)]);
    var rrIv1 := |db.mips|;
    db := db.(mips := db.mips + [ModuleInstanceProfessor(iv1, rr)]);
    var rrIv2 := |db.mips|;
    db := db.(mips := db.mips + [ModuleInstanceProfessor(iv2, rr)]);
    db := db.(mips := db.mips + [ModuleInstanceProfessor(iv1, oj)]);
    var rrDv := |db.mips|;
    db := db.(mips := db.mips + [ModuleInstanceProfessor(dvInstance, rr)]);
    db := db.(mips := db.mips + [ModuleInstanceProfessor(wsInstance, aa)]);
    if withRatings {
      var u1 := |db.users|;
      db := db.(users := db.users + [User(user1, SeedEmail, "password")]);
      var u2 := |db.users|;
      db := db.(users := db.users + [User(user2, SeedEmail, "password")]);
      db := db.(ratings := db.ratings + [Rating(u1, rrIv1, 1)]);
      db := db.(ratings := db.ratings + [Rating(u2, rrIv2, 3)]);
      db := db.(ratings := db.ratings + [Rating(u2, rrDv, 5)]);
    }
    SeededValid(withRatings, user1, user2);
  }

  /** The fixture satisfies the schema's constraints and holds at most one rating per (user, MIP). */
  lemma SeededValid(withRatings: bool, user1: string, user2: string)
    requires user1 != user2
    ensures Seeded(withRatings, user1, user2).Valid() && Seeded(withRatings, user1, user2).OneRatingPerPair()
  {
  }

  /** Without ratings, seed creates 4 professors, 3 modules, 4 instances, 5 MIPs and nothing else. */
  lemma SeedSizes(user1: string, user2: string)
    ensures var db := Seeded(false, user1, user2);
      && |db.professors| == 4 && |db.modules| == 3 && |db.instances| == 4 && |db.mips| == 5
      && db.users == [] && db.ratings == []
  {
  }

  /** Some MIP links the professor with this code to this module's offering in this term. */
  predicate Teaches(db: Db, professorCode: string, moduleCode: string, year: int, semester: int)
  {
    db.FindMip(moduleCode, year, semester, professorCode).Some?
  }

  /** The teaching links the script sets up. */
  lemma SeedTeaching(withRatings: bool, user1: string, user2: string)
    ensures var db := Seeded(withRatings, user1, user2);
      && Teaches(db, "RR", "IV", 2024, 1) && Teaches(db, "RR", "IV", 2023, 1) && Teaches(db, "RR", "DV", 2024, 2)
      && Teaches(db, "OJ", "IV", 2024, 1) && Teaches(db, "AA", "WS", 2024, 2)
  {
    var db := Seeded(withRatings, user1, user2);
    assert db.MipMatches(db.mips[0], "IV", 2024, 1, "RR");
    assert db.MipMatches(db.mips[1], "IV", 2023, 1, "RR");
    assert db.MipMatches(db.mips[3], "DV", 2024, 2, "RR");
    assert db.MipMatches(db.mips[2], "IV", 2024, 1, "OJ");
    assert db.MipMatches(db.mips[4], "WS", 2024, 2, "AA");
  }

  /** The links the script saves: RR-IV2024, RR-IV2023, OJ-IV2024, RR-DV2024, AA-WS2024. */
  lemma SeedLinks(withRatings: bool, user1: string, user2: string)
    ensures Seeded(withRatings, user1, user2).mips == [
      ModuleInstanceProfessor(0, 0), ModuleInstanceProfessor(1, 0), ModuleInstanceProfessor(0, 3),
      ModuleInstanceProfessor(2, 0), ModuleInstanceProfessor(3, 2)]
  {
  }

  /** Owen Johnson does not teach the 2023 Info Vis instance. */
  lemma SeedOwenNotInfoVis2023(withRatings: bool, user1: string, user2: string)
    ensures !Teaches(Seeded(withRatings, user1, user2), "OJ", "IV", 2023, 1)
  {
    var db := Seeded(withRatings, user1, user2);
    SeedLinks(withRatings, user1, user2);
    assert db.instances[0].year == 2024;
    assert db.professors[0].code[0] == 'R' && db.professors[2].code[0] == 'A';
    assert forall m :: 0 <= m < |db.mips| ==> !db.MipMatches(db.mips[m], "IV", 2023, 1, "OJ");
  }

  /** John Stell (professor 1) teaches nothing. */
  lemma SeedJohnStellUntaught(withRatings: bool, user1: string, user2: string)
    ensures var db := Seeded(withRatings, user1, user2);
      forall m :: 0 <= m < |db.mips| ==> db.mips[m].professorId != 1
  {
    SeedLinks(withRatings, user1, user2);
  }

  /** Before any rating exists, view reports a null average for every professor. */
  lemma SeedUnratedView(user1: string, user2: string, p: nat)
    requires p < 4
    ensures MeanRounded(Seeded(false, user1, user2).ProfessorValues(p)) == None
  {
    var db := Seeded(false, user1, user2);
    assert Matching(db.ratings, r => db.RatesProfessor(r, p)) == [];
  }

  /**
   * The rated fixture's two users share the email test@test.com, which register would
   * refuse: the script writes them directly. Registering that email afterwards fails,
   * whatever the username.
   */
  lemma SeedUsers(user1: string, user2: string)
    ensures var db := Seeded(true, user1, user2);
      && |db.users| == 2 && db.users[0].email == SeedEmail && db.users[1].email == SeedEmail
      && forall u :: db.UserClash(u, SeedEmail)
  {
    var db := Seeded(true, user1, user2);
    assert db.users[0].email == SeedEmail;
  }

  /** Matching unfolded on a three-element table (the rated fixture has three ratings). */
  lemma MatchingOfThree<T>(s: seq<T>, p: T -> bool)
    requires |s| == 3
    ensures Matching(s, p) == (if p(s[0]) then [0] else []) + (if p(s[1]) then [1] else []) + (if p(s[2]) then [2] else [])
  {
    var s1, s2 := s[..1], s[..2];
    assert s1[..0] == [] && s2[..1] == s1 && s[..2] == s2;
    assert Matching(s1, p) == (if p(s[0]) then [0] else []);
    assert Matching(s2, p) == Matching(s1, p) + (if p(s[1]) then [1] else []);
  }

  lemma ValuesOfSeedRatings(user1: string, user2: string, ix: seq<nat>, vs: seq<int>)
    requires forall k :: 0 <= k < |ix| ==> ix[k] < 3
    requires |vs| == |ix| && forall k :: 0 <= k < |ix| ==> vs[k] == [1, 3, 5][ix[k]]
    ensures ValuesAt(Seeded(true, user1, user2).ratings, ix) == vs
  {
  }

  /** The rounded means of the fixture's rating values. */
  lemma SeedMeans()
    ensures MeanRounded([1, 3]) == Some(2) && MeanRounded([5]) == Some(5) && MeanRounded([1, 3, 5]) == Some(3)
  {
    assert [1, 3, 5][..2] == [1, 3] && [1, 3][..1] == [1] && [5][..0] == [] && [1][..0] == [];
  }

  /** Every fixture rating is of Roy Ruddle: the first two in Info Vis, the third in Data Vis. */
  lemma SeedRatedPairs(user1: string, user2: string, professorCode: string, moduleCode: string)
    ensures var db := Seeded(true, user1, user2);
      && (db.RatesPair(db.ratings[0], professorCode, moduleCode) <==> professorCode == "RR" && moduleCode == "IV")
      && (db.RatesPair(db.ratings[1], professorCode, moduleCode) <==> professorCode == "RR" && moduleCode == "IV")
      && (db.RatesPair(db.ratings[2], professorCode, moduleCode) <==> professorCode == "RR" && moduleCode == "DV")
  {
    var db := Seeded(true, user1, user2);
    assert db.ratings[0].mipId == 0 && db.ratings[1].mipId == 1 && db.ratings[2].mipId == 3;
    assert db.mips[0] == ModuleInstanceProfessor(0, 0) && db.mips[1] == ModuleInstanceProfessor(1, 0);
    assert db.mips[3] == ModuleInstanceProfessor(2, 0);
    assert db.instances[0].moduleId == 0 && db.instances[1].moduleId == 0 && db.instances[2].moduleId == 1;
    assert db.professors[0].code == "RR" && db.modules[0].code == "IV" && db.modules[1].code == "DV";
  }

  /** Roy Ruddle's Info Vis ratings are the 1 (2024) and the 3 (2023): their average is 2. */
  lemma SeedAverageRoyInfoVis(user1: string, user2: string)
    ensures Seeded(true, user1, user2).PairValues("RR", "IV") == [1, 3]
    ensures MeanRounded(Seeded(true, user1, user2).PairValues("RR", "IV")) == Some(2)
  {
    var db := Seeded(true, user1, user2);
    var p := r => db.RatesPair(r, "RR", "IV");
    SeedRatedPairs(user1, user2, "RR", "IV");
    assert "IV"[0] != "DV"[0];
    assert p(db.ratings[0]) && p(db.ratings[1]) && !p(db.ratings[2]);
    MatchingOfThree(db.ratings, p);
    ValuesOfSeedRatings(user1, user2, [0, 1], [1, 3]);
    SeedMeans();
  }

  /** Roy Ruddle's one Data Vis rating is a 5. */
  lemma SeedAverageRoyDataVis(user1: string, user2: string)
    ensures Seeded(true, user1, user2).PairValues("RR", "DV") == [5]
    ensures MeanRounded(Seeded(true, user1, user2).PairValues("RR", "DV")) == Some(5)
  {
    var db := Seeded(true, user1, user2);
    var p := r => db.RatesPair(r, "RR", "DV");
    SeedRatedPairs(user1, user2, "RR", "DV");
    assert "IV"[0] != "DV"[0];
    assert !p(db.ratings[0]) && !p(db.ratings[1]) && p(db.ratings[2]);
    MatchingOfThree(db.ratings, p);
    ValuesOfSeedRatings(user1, user2, [2], [5]);
    SeedMeans();
  }

  /** Over all of Roy Ruddle's teaching (two modules, two years) the average is 3. */
  lemma SeedAverageRoy(user1: string, user2: string)
    ensures Seeded(true, user1, user2).ProfessorValues(0) == [1, 3, 5]
    ensures MeanRounded(Seeded(true, user1, user2).ProfessorValues(0)) == Some(3)
  {
    var db := Seeded(true, user1, user2);
    var p := r => db.RatesProfessor(r, 0);
    assert p(db.ratings[0]) && p(db.ratings[1]) && p(db.ratings[2]);
    MatchingOfThree(db.ratings, p);
    var ix := Matching(db.ratings, p);
    assert ix == [0] + [1] + [2];
    assert ix == [0, 1, 2];
    ValuesOfSeedRatings(user1, user2, ix, [1, 3, 5]);
    assert db.ProfessorValues(0) == ValuesAt(db.ratings, ix);
    SeedMeans();
  }

  /** John Stell teaches nothing, so even with ratings in the store view reports no average for John Stell. */
  lemma SeedAverageJohnStell(user1: string, user2: string)
    ensures MeanRounded(Seeded(true, user1, user2).ProfessorValues(1)) == None
  {
    SeedJohnStellUntaught(true, user1, user2);
    UntaughtHasNoRatings(Seeded(true, user1, user2), 1);
  }

  /** The average handler on the rated fixture, queried for Roy Ruddle in Info Vis. */
  lemma SeedAverageResponse(user1: string, user2: string)
    ensures AverageView(Seeded(true, user1, user2), map["professor_code" := "RR", "module_code" := "IV"]) ==
      Response(200, PairAverage(PairRating("Roy Ruddle", "RR", "Info Vis", "IV", Some(2))))
  {
    SeedAverageRoyInfoVis(user1, user2);
    SeedProfessorFound(true, user1, user2);
    SeedModuleFound(true, user1, user2);
  }

  /** The code RR names exactly one professor of the fixture, the first. */
  lemma SeedProfessorFound(withRatings: bool, user1: string, user2: string)
    ensures GetBy(Seeded(withRatings, user1, user2).professors, (p: Professor) => p.code, "RR") == Unique(0)
  {
    var db := Seeded(withRatings, user1, user2);
    assert forall i :: 1 <= i < |db.professors| ==> db.professors[i].code[0] != 'R';
  }

  /** The code IV names exactly one module of the fixture, the first. */
  lemma SeedModuleFound(withRatings: bool, user1: string, user2: string)
    ensures GetBy(Seeded(withRatings, user1, user2).modules, (m: Module) => m.code, "IV") == Unique(0)
  {
    var db := Seeded(withRatings, user1, user2);
    assert forall i :: 1 <= i < |db.modules| ==> db.modules[i].code[0] != 'I';
  }
}
