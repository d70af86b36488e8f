/** What one step of a debugging session leaves to show: a stop state and the innermost frame. */
module Snapshots {
  import opened GoStrings
  import opened Dap

  datatype FrameRef = FrameRef(goroutineId: int, index: int)

  datatype Frame = Frame(ref: FrameRef, file: string, line: int)

  /** A stop state with the innermost frame and the source window around it, when the program is stopped,
      its stack can be read and the window rendered. */
  datatype Snapshot = Snapshot(state: StopState, frame: Option<Frame>, stackFailed: bool, source: Option<string>)

  datatype Action = Continue | Next | StepIn

  predicate Exited(snapshot: Option<Snapshot>) {
    snapshot.Some? && snapshot.value.state.exited
  }
}
