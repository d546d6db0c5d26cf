/** The exit-code contract both programs expose to their callers, and the banner lines they print. */
module ExitCodes {

  const Success := 0
  const SslError := 1
  const ConnectionError := 2
  const AuthError := 3
  const OtherError := 4

  /** What a run leaves behind: its exit code and the last banner line it printed. */
  datatype Outcome = Outcome(code: int, banner: string)

  const SuccessBanner := "***** CONNECTION SUCCESSFUL *****"

  function FailureBanner(message: string): string
  {
    "***** CONNECTION FAILED: " + message + " *****"
  }
}
