/** The argument check of `main`, before any analysis starts. */
module Cli {
  import opened Maybe
  import opened Text

  /** Why the command refused to start: the wrong number of arguments
      (the usage message) or an argument that is not a user identifier. */
  datatype ArgError = Usage | NotUserId

  /** Every user identifier starts with this. */
  const UserPrefix: String := "ocid1.user."

  /** `argv` includes the program name, as `sys.argv` does. */
  function ParseArgs(argv: seq<String>): (r: Result<String, ArgError>)
    ensures r.Success? <==> |argv| == 2 && UserPrefix <= argv[1]
    ensures r.Success? ==> r.value == argv[1] && UserPrefix <= r.value
    ensures |argv| != 2 ==> r == Failure(Usage)
    ensures |argv| == 2 && !(UserPrefix <= argv[1]) ==> r == Failure(NotUserId)
  {
    if |argv| != 2 then Failure(Usage)
    else if !(UserPrefix <= argv[1]) then Failure(NotUserId)
    else Success(argv[1])
  }
}
