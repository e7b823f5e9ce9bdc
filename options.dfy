/** The checks `main` of the gzip_try variant makes once getopt has consumed
    the options: the first failing check prints its message and calls
    `usage()`, which exits with status 1, so the loop never starts. */
module Options {

  const CLIENT: int := 0

  datatype Role = Client | Server

  /** Why the configuration is refused, in the order the checks run. */
  datatype ConfigError =
    | TooManyOptions    // positional arguments remain after the options
    | NoInterface       // no -i, or -i with an empty name
    | NoMode            // neither -s nor -c
    | NoServerAddress   // -c with an empty server address

  /** Start the tunnel in the given role, or print the usage text and exit
      with status 1. */
  datatype Verdict = Start(role: Role) | Usage(error: ConfigError)

  /** `extra` is argc after `argc -= optind`, `cliserv` is -1 (unset),
      CLIENT or SERVER, `remoteIp` the text given to -c. */
  function CheckConfig(extra: int, ifName: string, cliserv: int, remoteIp: string): (v: Verdict)
    ensures v.Start? ==> (v.role == Client <==> cliserv == CLIENT)
  {
    if extra > 0 then Usage(TooManyOptions)
    else if ifName == "" then Usage(NoInterface)
    else if cliserv < 0 then Usage(NoMode)
    else if cliserv == CLIENT && remoteIp == "" then Usage(NoServerAddress)
    else Start(if cliserv == CLIENT then Client else Server)
  }

  /** The tunnel starts exactly when no positional argument remains, an
      interface is named, a mode is chosen, and a client knows its server. */
  lemma AcceptedExactly(extra: int, ifName: string, cliserv: int, remoteIp: string)
    ensures CheckConfig(extra, ifName, cliserv, remoteIp).Start? <==>
      extra <= 0 && ifName != "" && cliserv >= 0 && (cliserv == CLIENT ==> remoteIp != "")
  {
  }

  /** Which error wins: positional arguments before everything, then the
      interface, then the mode, then the server address. */
  lemma ErrorPrecedence(extra: int, ifName: string, cliserv: int, remoteIp: string)
    ensures extra > 0 ==> CheckConfig(extra, ifName, cliserv, remoteIp) == Usage(TooManyOptions)
    ensures extra <= 0 && ifName == "" ==> CheckConfig(extra, ifName, cliserv, remoteIp) == Usage(NoInterface)
    ensures extra <= 0 && ifName != "" && cliserv < 0 ==>
      CheckConfig(extra, ifName, cliserv, remoteIp) == Usage(NoMode)
    ensures CheckConfig(extra, ifName, cliserv, remoteIp) == Usage(NoServerAddress) <==>
      extra <= 0 && ifName != "" && cliserv == CLIENT && remoteIp == ""
  {
  }
}
