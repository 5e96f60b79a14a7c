/** The value types exchanged between the client and the view-execution server.
    The domain records mirror internal/domain/domain.go; the request and response
    records come from the `business` package, of which only the fields the client
    uses are modelled. None of them carries behaviour. */
module Domain {

  /** A declared environment variable of a view. */
  datatype EnvSpec = EnvSpec(name: string)

  /** One invocable view: its name, its command template and the variables it accepts. */
  datatype ViewSpec = ViewSpec(name: string, command: string, env: seq<EnvSpec>)

  /** The catalogue of views served by the server. */
  datatype ShellpaneConfig = ShellpaneConfig(views: seq<ViewSpec>)

  /** The captured result of running one step. */
  datatype ViewOutput = ViewOutput(stdout: string, stderr: string, exitCode: int)

  /** A caller-supplied value for one environment variable of a view or a step. */
  datatype EnvOverride = EnvOverride(name: string, value: string)

  /** Which step of which view to fetch, with the overrides for each scope. */
  datatype GetStepOutputRequest = GetStepOutputRequest(
    viewName: string,
    stepName: string,
    viewEnv: seq<EnvOverride>,
    stepEnv: seq<EnvOverride>)

  datatype GetStepOutputResponse = GetStepOutputResponse(output: ViewOutput)

  /** Fetching the view catalogue takes no parameters. */
  datatype GetViewSpecsRequest = GetViewSpecsRequest

  datatype GetViewSpecsResponse = GetViewSpecsResponse(config: ShellpaneConfig)
}
