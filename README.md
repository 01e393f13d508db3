# rateprofs — a Dafny model

rateprofs is a small professor-rating service. Students register and log in. They then
list the module instances on offer and see every professor's average rating. They can
ask for one professor's average within one module, and rate the professor who taught a
module instance. A Django API answers these seven requests. Two command-line clients
talk to it: the current one against the hosted service, and an earlier one against a
local development server. A seeding script fills the database with a small fixture.

The model covers:

- **`api.dfy`, `views.dfy`**: the seven handlers over an abstract store. The `Store`
  class holds the six tables (`Db`, in `schema.dfy`) and the logged-in user of the
  client's session. `register`, `login`, `logout` and `rate` are methods that change the
  store. `list` and `view` are loops that build their result lists. `average` is a
  function.
- **`schema.dfy`**: the tables, the ORM queries the handlers use, and the invariant
  "at most one rating per (user, module-instance-professor)". A module-instance-professor
  (MIP) is one professor teaching one module instance.
- **`wrappers.dfy`, `sequences.dfy`**: the Option type that stands for Python's None,
  and the first-match search shared by the queries' first() and the number grammar.
- **`rounding.dfy`, `literals.dfy`**:
  - Python's `round`, which rounds a tie to the even neighbour, applied to an exact
    mean;
  - the `int()` and `float()` conversions of request fields;
  - `str()` of an integer.
- **`fixture.dfy`**: the seeding script's `seed(ratings)`. It builds the fixture by
  appending rows in the script's order. The averages the script's comments predict are
  proved of it.
- **`shell.dfy`, `client.dfy`, `legacy_client.dfy`**, for the two clients:
  - the read-dispatch loop, the command table and each command's request;
  - the rendering of replies;
  - client-to-server runs that send a client's request to the server model.

Identifiers are 0-based positions in the tables. A request's form or query string is a
`map<string, string>`:

- A POST field that is absent raises `KeyError`, which the handler's catch-all turns into
  422 "Something went wrong".
- A GET parameter that is absent reads as `""`, which is as falsy as the `None` that
  `request.GET.get` returns.

Where the handlers' comments and their code disagree, the model follows the code:

- `rate` answers 200 "Added rating", not the 201 its comment announces.
- `rate`'s 400 "Provided rating is not a number" branch can never be taken. It catches
  `TypeError`, but `float()` of a string raises `ValueError`, which reaches the catch-all
  422. `Views.Store.Rate` proves the status is never 400.
- `rate` stores the submitted rating string, not the rounded number. Saving it converts
  it with `int()`. So a rating like `"2.5"` passes the `float()` check and both lookups,
  then fails with the generic 422 and nothing stored.

## Model

| member | source | states |
|---|---|---|
| Rounding.RoundHalfEven | myapp/api/views.py:178 | the result is a nearest integer to n/d, and on a tie it is the even one |
| Rounding.NearestEvenUnique | myapp/api/views.py:178 | at most one integer is the half-even rounding of n/d |
| Rounding.RoundHalfEvenCharacterised | myapp/api/views.py:178 | k is the rounding of n/d if and only if k is the nearest integer with ties to even |
| Rounding.MeanRounded | myapp/api/views.py:161-178 | no average (None) exactly when there are no ratings or their sum is 0 (`if avg` is falsy); otherwise the half-even rounding of the exact mean |
| Literals.ParseInt | myapp/api/views.py:217-222 | the integer coercion of a field succeeds exactly on optionally signed digit strings of at most 4300 digits, gives the integer they denote, and a non-negative one when unsigned |
| Literals.ShowNatValue | myclient/client.py:15 | the decimal digits printed for n read back as n |
| Literals.ShowIntValue | myclient/client.py:15 | the text str(i) prints is an integer literal denoting i, for every integer i |
| Literals.ParseShowInt | myclient/client.py:15 | int(str(i)) == i whenever str(i) has at most 4300 digits, the sign not counted |
| Literals.IntLiteralIsFloatLiteral | myapp/api/views.py:210-214 | every string int() accepts is also well-formed for float() |
| Literals.ThresholdBetweenPowers | myapp/api/views.py:212 | the magnitude from which float() gives an infinity, 2^1024 - 2^970, lies between 10^308 and 10^309 |
| Literals.PowerOverflows | myapp/api/views.py:212 | every power of ten from 10^309 up is an infinity for float() |
| Literals.IntLiteralFinite | myapp/api/views.py:212 | an integer literal of at most 308 digits survives round(float()) |
| Literals.IntLiteralOverflows | myapp/api/views.py:212 | an integer literal of 310 or more digits, not led by a zero, becomes an infinity, on which round() raises |
| Literals.PowerFinite | myapp/api/views.py:212 | every power of ten up to 10^308 is a finite double |
| Literals.ExponentLiteralParts | myapp/api/views.py:212 | "1e" followed by the digits of x is well-formed for float(), with mantissa "1" and exponent x |
| Literals.ExponentLiteral | myapp/api/views.py:212 | "1e" followed by the digits of x overflows exactly when 1 × 10^x reaches the overflow threshold |
| Literals.ExponentOverflows | myapp/api/views.py:212 | "1e" followed by the digits of x becomes an infinity exactly when x is at least 309, so "1e400" is refused and "1e308" is not |
| Schema.GetBy | myapp/api/views.py:166-170 | get() finds nothing exactly when no row has the key; Unique names the only row with it; Ambiguous means two rows have it |
| Schema.Matching | myapp/api/views.py:161-164 | a filter's result rows are positions of the table |
| Schema.MatchingSpec | myapp/api/views.py:161-164 | a filter keeps exactly the rows that satisfy it, each once and in table order |
| Schema.MatchingNone | myapp/api/views.py:161-164 | a filter no row satisfies selects nothing |
| Schema.Db.FindMip | myapp/api/views.py:217-222 | the MIP first() finds is the lowest-numbered one matching module code, year, semester and professor code, and there is none exactly when no MIP matches |
| Schema.MatchingAgrees | myapp/api/views.py:161-164 | two filters that agree on every row select the same rows |
| Schema.Db.Authenticate | myapp/api/views.py:54 | a user is returned only when both their username and their password match |
| Schema.AuthenticateComplete | myapp/api/views.py:54-56 | with unique usernames, authentication fails if and only if no user has both the username and the password |
| Schema.AuthenticateNewUser | myapp/api/views.py:30-31 | a user created under a username nobody has is the one login then finds for that username and password |
| Schema.AddRatingOnePerPair | myapp/api/views.py:227-238 | appending a rating keeps "one rating per (user, MIP)" if and only if that user has not rated that MIP |
| Schema.PairValuesIgnoreTerm | myapp/api/views.py:161-164 | the pair average pools every year and semester: changing instances' year or semester does not change the ratings it averages |
| Schema.UntaughtHasNoRatings | myapp/api/views.py:127 | a professor with no MIP has no ratings to average |
| Views.Store.AddUser | myapp/api/views.py:30-31 | create_user appends exactly one user, keeps the store valid and leaves the session alone |
| Views.Store.AddRating | myapp/api/views.py:237-238 | saving a rating appends exactly that rating and nothing else |
| Views.Store.Register | myapp/api/views.py:17-35 | an absent field gives the generic 422; an empty field gives 422 "Missing required fields"; a clash on username or email gives 422 with users unchanged; otherwise exactly one user is appended and 200 "Success"; the status is always 200 or 422 |
| Views.Store.Login | myapp/api/views.py:45-64 | tables never change; absent field gives the generic 422, an empty one 422; wrong credentials give 404 with the session unchanged; on success the session is the authenticated user and 200 |
| Views.Store.Logout | myapp/api/views.py:73-82 | with no session 403, otherwise 200; either way the session ends up empty and the tables are unchanged |
| Views.Store.Rate | myapp/api/views.py:196-242 | with no session, 403 before reading any field; absent fields, a rating float() refuses or makes infinite (round() then raises OverflowError), a year or semester that int() refuses (including more than 4300 digits), a rating int() refuses on save (a fraction, or more than 4300 digits), or one outside the 64-bit INTEGER range give the generic 422; empty fields give 422 "Missing required fields"; no matching MIP gives 404; a second rating of the same MIP gives 422; otherwise exactly one (user, MIP, int(rating)) rating is appended with 200; never 400; every error leaves the tables unchanged; "one rating per (user, MIP)" is preserved |
| Views.TaughtByUpTo | myapp/api/views.py:100-105 | the teacher rows gathered are exactly the professors linked to the instance by a MIP |
| Views.ListView | myapp/api/views.py:90-116 | 404 when there are no instances; otherwise one row per instance, in order, with its module's code and name, its year and semester, and exactly its linked professors |
| Views.ViewView | myapp/api/views.py:124-142 | 404 when there are no professors; otherwise one entry per professor, in order, whose average is the rounded mean of that professor's ratings or None when there are none |
| Views.Param | myapp/api/views.py:155-156 | the parameter read is non-empty exactly when the query carries the key with a non-empty value, and is then that value |
| Views.AverageView | myapp/api/views.py:152-183 | a missing code gives 422; an unknown professor code gives 404; the status is 200, 404 or 422; on 200 the codes are the requested ones, the names are those of a professor and a module carrying those codes, and the average is the rounded mean of the ratings on that pair across all years and semesters |
| Views.AverageViewStatus | myapp/api/views.py:157-172 | with unique codes, 200 if and only if both codes are given and both exist, and 404 if and only if both are given and one does not exist |
| Fixture.Seed | myapp/reset-db.py:18-93 | the seeded tables are exactly the fixture, satisfy the schema's constraints and hold at most one rating per (user, MIP) |
| Fixture.SeededValid | myapp/reset-db.py:75-93 | the fixture is valid and holds at most one rating per (user, MIP), even though its two users share an email |
| Fixture.SeedSizes | myapp/reset-db.py:21-74 | without ratings: 4 professors, 3 modules, 4 instances, 5 MIPs, no users and no ratings |
| Fixture.SeedLinks | myapp/reset-db.py:57-73 | the five teaching links are saved in the script's order, between the script's instances and professors |
| Fixture.SeedTeaching | myapp/reset-db.py:57-73 | RR teaches IV 2024/1, IV 2023/1 and DV 2024/2; OJ teaches IV 2024/1; AA teaches WS 2024/2 |
| Fixture.SeedOwenNotInfoVis2023 | myapp/reset-db.py:63-65 | OJ does not teach IV 2023/1 |
| Fixture.SeedJohnStellUntaught | myapp/reset-db.py:24-25 | JS is linked to no module instance |
| Fixture.SeedProfessorFound | myapp/reset-db.py:22-29 | the code RR names exactly one professor |
| Fixture.SeedModuleFound | myapp/reset-db.py:31-41 | the code IV names exactly one module |
| Fixture.SeedUnratedView | myapp/reset-db.py:21-74 | without ratings every professor's average is None |
| Fixture.SeedUsers | myapp/reset-db.py:77-80 | the two seeded users share the email test@test.com, so a register with that email afterwards is refused, whatever the username |
| Fixture.SeedMeans | myapp/reset-db.py:82-91 | the rounded means of [1, 3], [5] and [1, 3, 5] are 2, 5 and 3 |
| Fixture.SeedRatedPairs | myapp/reset-db.py:82-93 | the first two ratings are of RR in IV and the third of RR in DV, and of no other pair |
| Fixture.SeedAverageRoyInfoVis | myapp/reset-db.py:82-87 | the ratings of RR in IV are [1, 3], across both years, and average 2 |
| Fixture.SeedAverageRoyDataVis | myapp/reset-db.py:89-93 | the ratings of RR in DV are [5] and average 5 |
| Fixture.SeedAverageRoy | myapp/reset-db.py:89-90 | RR's ratings over all modules are [1, 3, 5] and average 3 |
| Fixture.SeedAverageJohnStell | myapp/reset-db.py:24-25 | JS has no ratings, so view reports None for that professor |
| Fixture.SeedAverageResponse | myapp/reset-db.py:82-87 | average?professor_code=RR&module_code=IV on the rated fixture answers 200 with Roy Ruddle, Info Vis and average 2 |
| Shell.LowerKeepsLowerCase | myclient/client.py:125 | a word with no upper-case letter is its own lower case |
| Shell.RunSession | myclient/client.py:120-185 | the loop stops at the first "exit" or empty line, or at the end of input; every line before the stop was a usage error, an unknown command or a command; the requests sent are exactly the commands among those lines, in order |
| Shell.IssuedCountsCommands | myclient/client.py:129-185 | at most one request per line, and none at all when no line is a well-formed command |
| Shell.Reply | client.py:10-13 | a 200 reply prints its text verbatim, any other exactly the line "Error: <status> - <text>" |
| Shell.ErrorLineReadsBack | myclient/client.py:12-15 | the error line is "Error: ", the status's digits, " - " and the server's text, so both the status and the text can be read back from it (by int() whenever the status has at most 4300 digits, the sign not counted) |
| Client.Parse | myclient/client.py:120-185 | no tokens gives an empty line; "exit" in any case quits; a word outside the table is "Invalid command"; a known word with the wrong token count gives a usage message that starts with "Invalid '<word>' command. Format: <word>"; otherwise the command built has that word and exactly the remaining tokens as arguments |
| Client.Dispatch | myclient/client.py:125-185 | the match on the lower-cased word: "exit" quits, a word outside the table is unknown, a known word with the wrong token count gives its usage message, otherwise the command with that word and those arguments |
| Client.ParseCanonical | myclient/client.py:129-183 | the arity table is register, logout, list and view 1, login 2, average 3, rate 6, and typing a command's word and arguments parses back to that command |
| Client.ParseIgnoresCase | myclient/client.py:125 | two spellings of the command word that lower-case alike parse alike |
| Client.RequestFor | myclient/client.py:9-106 | list, view and average are GET and every other command POST; every value sent is a typed argument or prompt answer; the password travels only with register and login |
| Client.RequestUrls | myclient/client.py:22 | login goes to "http://" + host + "/api/login", never to the configured base URL; every other command goes to the base URL plus its name |
| Client.RateFieldsMissServer | myclient/client.py:106 | rate sends professorCode, moduleCode, year, semester and rating, which lacks the professor_code and module_code the server reads |
| Client.RateAgainstServer | myclient/client.py:104-112 | a rate command sent to the server model prints "Error: 403 - …" when logged out and "Error: 422 - Something went wrong" when logged in, and changes nothing |
| Client.RegisterThenLogin | myclient/client.py:9-28 | with login typed with the service's own host, registering fresh credentials prints Success, registering them again prints the 422 "already exists" line, and logging in with them prints Success and logs in the new user |
| Client.Stars | myclient/client.py:77 | '*' * n is n stars, and none when n is not positive |
| Client.TrailingStarsAfter | myclient/client.py:77 | stars printed after text that does not end in a star count back to the rating |
| Client.ViewLine | myclient/client.py:76-79 | a rated professor's line starts "The rating of Professor " and ends in exactly n stars; an unrated one starts "No ratings exist for Professor " and ends in none |
| Client.RenderView | myclient/client.py:68-85 | on 200, the lines of the professors in the server's order joined by newlines; otherwise the error line |
| Client.ListCells | myclient/client.py:54-59 | each instance gives five cells, whose year and semester cells are integer literals denoting the instance's year and semester |
| Client.RenderList | myclient/client.py:42-65 | on 200, the header row and then one row per instance in the server's order, each listing its teachers; otherwise the error line |
| Client.AverageText | myclient/client.py:88-101 | a null average prints "Rating unavailable"; a rated one starts "The rating of Professor " and ends in exactly n stars; a non-200 reply prints the error line |
| Client.SeedAverageShown | myclient/client.py:93-94 | asking the seeded server for RR in IV prints a line ending in two stars |
| LegacyClient.Parse | client.py:83-134 | as in the current client, over the table login 3, logout, list, view and seed 1, average 3, rate 6 |
| LegacyClient.Dispatch | client.py:86-134 | the legacy match on the lower-cased word, with the same four outcomes over the legacy table |
| LegacyClient.ParseCanonical | client.py:90-132 | the legacy arity table, and typing a command's word and arguments parses back to that command |
| LegacyClient.RegisterIsUnknown | client.py:133-134 | "register" is not a command here and is reported as "Invalid command" |
| LegacyClient.RequestFor | client.py:9-70 | list, view, average and seed are GET and the others POST; every value sent is one of the command's own arguments |
| LegacyClient.RequestUrls | client.py:58-60 | every request goes to the local base URL under the command's name, except rate, which is posted to login without a username or password |
| LegacyClient.RateAgainstServer | client.py:58-66 | a rate command sent to the server model always prints "Error: 422 - Something went wrong" and changes neither the tables nor the session |
| LegacyClient.LoginLogoutAgainstServer | client.py:7-25 | login with inline credentials prints Success exactly when they authenticate, otherwise the 404 line; the logout that follows always leaves no session |

## Left out

- The HTTP layer is not modelled: method restrictions (405), CSRF exemption, URL routing
  and JSON serialisation. Replies carry the decoded payload, and the legacy client's
  verbatim printing of JSON bodies is not modelled.
- The legacy client's `seed` command is modelled as far as the request it sends. No
  route in the API's URL table serves that request.
- Password hashing and Django's `authenticate` are modelled as comparing the stored
  password with the given one.
- Views.Store.Register and Views.Store.Login: `create_user` normalises the email's domain
  and the username (Unicode NFKC) before saving, while the clash check and `authenticate`
  compare the text as sent. Neither normalisation is modelled. Registering "ﬁ" (U+FB01)
  beside an existing "fi" is refused by the username's unique constraint with the generic
  422 in the service, but appends a user in the model, and a later login as "ﬁ" succeeds
  only in the model.
- The session cookie is modelled as one logged-in user per store.
- Client.RegisterThenLogin: every request reaches the one server model. Login's plain-HTTP
  address on the service's host and the HTTPS base URL are taken to be the same server,
  sharing the session cookie. A login typed with another host reaches some other server,
  which is not modelled, so the method requires the service's host.
- The current client's average line puts single quotes inside a single-quoted f-string
  (myclient/client.py:94). Python accepts that only from version 3.12, and the model
  assumes such an interpreter; on earlier ones the client fails to load at all.
- Views.Store.Rate: float() is modelled as a decimal-literal grammar (sign, digits with
  an optional point, optional exponent) together with its overflow to an infinity, on
  which round() raises. It does not accept surrounding whitespace, digit-group
  underscores, "inf" or "nan" (the last two also make round() raise, so the reply is the
  same generic 422). int() likewise accepts only an optionally signed digit string, with
  CPython's default limit of 4300 digits. round(float(rating)) is discarded by the
  handler, so its result is not modelled. Python's int() and float() also accept every
  Unicode decimal digit (a fullwidth "５" reads as 5), which the model refuses: such a
  rating, year or semester gets the generic 422 in the model but is read as a number by
  the service.
- Literals.ParseInt: only an optionally signed string of ASCII digits is modelled. Python's
  int() also strips surrounding whitespace, accepts single underscores between digits
  ("1_000") and reads every other Unicode decimal digit; the model refuses all three.
- Views.Store.Login: Django's login() also records the user's last_login time (the
  update_last_login receiver of the user_logged_in signal). The model's users carry no
  such column, so that write is not modelled.
- Views.Store.Rate: the stored rating is bounded by the 64-bit INTEGER that SQLite binds,
  and the int() coercion on save is that of an integer rating column. The Django model
  file that declares that column (myapp/api/models.py) is not part of this model.
- Views.Store.Rate: a year or semester that int() reads but that lies outside 64 bits
  matches no instance in the model (404). Depending on the Django version, the query
  either matches nothing or raises, which gives the generic 422.
- Views.ViewView, Views.AverageView and Rounding.MeanRounded: the database's floating
  average is modelled as an exact rational. A mean whose float representation rounds
  differently from the exact one is not captured.
- Views.ListView: a professor is listed once per MIP linking them to the instance, in MIP
  order. The order of the ORM's many-to-many query is not modelled.
- Views.ListView and Views.ViewView: `objects.all()` and the annotated professor query
  name no ordering; the model lists instances and professors in table order.
- `rate`'s check-then-insert race between two concurrent requests is not modelled.
- Rating bounds and semester values are constrained only in code that is not part of this
  model, and no handler checks them, so no such bound is stated.
- Fixture.Seed: the two random 8-character usernames are parameters, required to be
  distinct. `reset_database` (file deletion, migrations, the interactive superuser) is
  not modelled.
- Reading lines with `input`, `str.split` on whitespace, `print`, and the network calls
  are not modelled. Each line reaches Shell.RunSession already split into tokens. The
  prompts' answers are a parameter, and the server's reply is the handler's `Response`.
- Shell.RunSession: an empty line and the end of input stop the loop, as the unhandled
  IndexError and EOFError do. The traceback itself is not modelled.
- The "Request failed: …" branches, taken when the network call raises, are not
  modelled.
- Shell.Lower folds ASCII letters only. Python's lower() also maps the Kelvin sign to
  "k", and no command word contains a "k", so the comparisons come out the same.
- Client.RenderList stops at the table's rows: texttable's drawing, alignment and
  wrapping are not modelled.
