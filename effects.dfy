/**
 * The calls the batch tools make into the outside world (directory
 * creation, the linker, the converter, exiting, an escaping exception),
 * recorded in order.
 */
module Effects {
  /** A call the batch tools make into code outside the model. */
  datatype Effect =
    | MkDir(directory: string)
    | Link(hostTraceFile: string, deviceTraceFile: string, outputFile: string)
    | Convert(inputFile: string, outputFile: string, simulate: bool)
    | Exit(code: int)
    | Raise(exception: string)

  /**
   * The outside world as the batch tools see it: the ordered log of the
   * calls made so far. `Path.mkdir`, `TraceLinker.link`,
   * `PyTorchConverter.convert` and `sys.exit` only append to it.
   */
  class World {
    var log: seq<Effect>

    constructor ()
      ensures log == []
    {
      log := [];
    }

    /** `Path(directory).mkdir(exist_ok=True, parents=True)`. */
    method MkDir(directory: string)
      modifies this
      ensures log == old(log) + [Effect.MkDir(directory)]
    {
      log := log + [Effect.MkDir(directory)];
    }

    /** `TraceLinker().link(host, device, output)`. */
    method Link(hostTraceFile: string, deviceTraceFile: string, outputFile: string)
      modifies this
      ensures log == old(log) + [Effect.Link(hostTraceFile, deviceTraceFile, outputFile)]
    {
      log := log + [Effect.Link(hostTraceFile, deviceTraceFile, outputFile)];
    }

    /** `PyTorchConverter().convert(input, output, simulate)`. */
    method Convert(inputFile: string, outputFile: string, simulate: bool)
      modifies this
      ensures log == old(log) + [Effect.Convert(inputFile, outputFile, simulate)]
    {
      log := log + [Effect.Convert(inputFile, outputFile, simulate)];
    }

    /** `sys.exit(code)`: the caller returns right after it. */
    method Exit(code: int)
      modifies this
      ensures log == old(log) + [Effect.Exit(code)]
    {
      log := log + [Effect.Exit(code)];
    }

    /** An uncaught exception: the caller returns right after it. */
    method Raise(exception: string)
      modifies this
      ensures log == old(log) + [Effect.Raise(exception)]
    {
      log := log + [Effect.Raise(exception)];
    }
  }
}
