/** One scheduled run end to end: the extractor handler's response feeds the
    state machine's status check, which decides whether the Athena query starts. */
module Pipeline {
  import opened Results
  import Handler
  import Orchestrator

  /** What the invoke task hands on: the status code of the handler's
      response, or `None` when the invocation fails before the handler can
      answer (`crashed`: a timeout, an import failure, an exception outside the
      handler's try-blocks). */
  function InvocationResult(inv: Handler.Invocation, crashed: bool): (r: Option<int>)
    ensures crashed <==> r.None?
    ensures r == Some(Orchestrator.HttpSuccess) <==>
              !crashed && Handler.ClusterReadable(inv) && Handler.PodsComplete(inv) && inv.fileWritten
  {
    if crashed then None else Some(Handler.Handle(inv).statusCode)
  }

  /** The state machine run on the extractor's result. */
  function ScheduledRun(inv: Handler.Invocation, crashed: bool): (r: Orchestrator.Execution)
    ensures |r.path| >= 1 && r.path[0] == Orchestrator.InvokeExtractor
    ensures Orchestrator.StartAthenaQuery in r.path <==>
              !crashed && Handler.ClusterReadable(inv) && Handler.PodsComplete(inv) && inv.fileWritten
    ensures Orchestrator.FailState in r.path <==>
              !crashed && !(Handler.ClusterReadable(inv) && Handler.PodsComplete(inv) && inv.fileWritten)
    ensures r.outcome == Orchestrator.Succeeded <==> Orchestrator.StartAthenaQuery in r.path
  {
    Orchestrator.Execute(InvocationResult(inv, crashed))
  }

  /** A failed upload still starts the query, on the CSV object that an earlier
      run left behind. */
  lemma QueryRunsDespiteUploadFailure(inv: Handler.Invocation)
    requires Handler.ClusterReadable(inv) && Handler.PodsComplete(inv) && inv.fileWritten
    requires !inv.uploaded
    ensures Orchestrator.StartAthenaQuery in ScheduledRun(inv, false).path
  {
  }

  /** Whether the query starts never depends on the upload. */
  lemma UploadIrrelevant(inv: Handler.Invocation, crashed: bool)
    ensures ScheduledRun(inv.(uploaded := true), crashed) == ScheduledRun(inv.(uploaded := false), crashed)
  {
    Handler.UploadDoesNotAffectResponse(inv);
  }

  /** A failed node or pod listing ends the run in the Fail state without
      starting the query. */
  lemma ListingFailureFails(inv: Handler.Invocation)
    requires inv.nodeListing.Err? || inv.podListing.Err?
    ensures Orchestrator.FailState in ScheduledRun(inv, false).path
    ensures Orchestrator.StartAthenaQuery !in ScheduledRun(inv, false).path
    ensures ScheduledRun(inv, false).outcome == Orchestrator.Failed
  {
  }
}
