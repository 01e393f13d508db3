/**
 * What the handlers send back: a status code and either a plain-text reason or the
 * JSON payload (kept here as the decoded value; serialisation is not modelled).
 */
module Api {
  import opened Wrappers

  /** A request's POST body or GET query string. */
  type Form = map<string, string>

  datatype TeacherRow = TeacherRow(professorName: string, professorCode: string)

  datatype InstanceRow = InstanceRow(
    moduleCode: string,
    moduleName: string,
    year: int,
    semester: int,
    taughtBy: seq<TeacherRow>)

  datatype ProfessorRating = ProfessorRating(professorName: string, professorCode: string, averageRating: Option<int>)

  datatype PairRating = PairRating(
    professorName: string,
    professorCode: string,
    moduleName: string,
    moduleCode: string,
    averageRating: Option<int>)

  datatype Body =
    | Text(text: string)
    | InstanceList(instances: seq<InstanceRow>)
    | ProfessorList(professors: seq<ProfessorRating>)
    | PairAverage(pair: PairRating)

  datatype Response = Response(status: int, body: Body)

  const Success := Response(200, Text("Success"))
  const Added := Response(200, Text("Added rating"))
  const NotAuthenticated := Response(403, Text("User is not authenticated"))
  const BadCredentials := Response(404, Text("The username or password is incorrect"))
  const NoInstances := Response(404, Text("No module instances found"))
  const NoProfessors := Response(404, Text("No ratings found"))
  const UnknownProfessorOrModule := Response(404, Text("Professor or module not found"))
  const NoSuchInstance := Response(404, Text("Module instance not found"))
  const MissingFields := Response(422, Text("Missing required fields"))
  const UserExists := Response(422, Text("A user with the provided credentials already exists"))
  const AlreadyRated := Response(422, Text("User has already rated this Module Instance"))
  /** The catch-all answer to any exception a handler raises. */
  const SomethingWentWrong := Response(422, Text("Something went wrong"))
}
