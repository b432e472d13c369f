/** The status routing of the extractor's Lambda handler: each stage that
    raises is caught and turned into a 500 response; an upload failure is only
    logged, so the response is still 200. */
module Handler {
  import opened Results
  import opened PodMetadata

  const HttpOk := 200
  const HttpInternalServerError := 500

  /** What the cluster, the local file system and the object store do during
      one invocation. The pod listing is only consulted once the node map has
      been built. */
  datatype Invocation = Invocation(
    nodeListing: Result<seq<Node>, Error>,
    podListing: Result<seq<Pod>, Error>,
    fileWritten: bool,
    uploaded: bool)

  /** The response body, standing for the message the handler returns. */
  datatype Body =
    | Uploaded
    | ClusterRequestFailed(error: Error)
    | CsvCreationFailed(error: Error)

  datatype Response = Response(statusCode: int, body: Body)

  /** The first try-block: the node map, then the pod records. It succeeds
      exactly when the cluster was readable, and then holds each listed pod's
      record under the node map, in listing order. The nodes come first: when
      they fail, that error is the one reported, whatever the pod listing holds. */
  function ExtractRecords(inv: Invocation): (r: Result<seq<PodInfo>, Error>)
    ensures r.Ok? <==> ClusterReadable(inv)
    ensures inv.nodeListing.Err? ==> r == Err(inv.nodeListing.error)
    ensures inv.nodeListing.Ok? && NodeZones(inv.nodeListing.value).Err? ==> r == Err(LabelsMissing)
    ensures r.Ok? ==>
              && |r.value| == |inv.podListing.value|
              && forall i | 0 <= i < |r.value| ::
                   PodRecord(inv.podListing.value[i], NodeZones(inv.nodeListing.value).value) == Ok(r.value[i])
  {
    match inv.nodeListing
    case Err(e) => Err(e)
    case Ok(nodes) =>
      match NodeZones(nodes)
      case Err(e) => Err(e)
      case Ok(zones) =>
        match inv.podListing
        case Err(e) => Err(e)
        case Ok(pods) => PodsInfo(pods, zones)
  }

  /** The cluster could be read: both listings answered, every node has labels
      and every pod yields a record. */
  ghost predicate ClusterReadable(inv: Invocation)
  {
    && inv.nodeListing.Ok?
    && (forall i | 0 <= i < |inv.nodeListing.value| :: inv.nodeListing.value[i].labels.Some?)
    && inv.podListing.Ok?
    && (forall i | 0 <= i < |inv.podListing.value| :: Extractable(inv.podListing.value[i]))
  }

  /** Every listed pod has a name, an IP and a node, so no record value is None. */
  ghost predicate PodsComplete(inv: Invocation)
    requires inv.podListing.Ok?
  {
    forall i | 0 <= i < |inv.podListing.value| ::
      var p := inv.podListing.value[i];
      p.name.Some? && p.ip.Some? && p.nodeName.Some?
  }

  /** `lambda_handler`. */
  function Handle(inv: Invocation): (r: Response)
    ensures r.statusCode == HttpOk || r.statusCode == HttpInternalServerError
    ensures r.statusCode == HttpOk <==> ClusterReadable(inv) && PodsComplete(inv) && inv.fileWritten
    ensures r.statusCode == HttpOk <==> r.body == Uploaded
    ensures !ClusterReadable(inv) ==> r.body.ClusterRequestFailed?
  {
    match ExtractRecords(inv)
    case Err(e) =>
      assert !ClusterReadable(inv);
      Response(HttpInternalServerError, ClusterRequestFailed(e))
    case Ok(infos) =>
      RecordsComplete(inv);
      match CsvContent(infos)
      case Err(e) => Response(HttpInternalServerError, CsvCreationFailed(e))
      case Ok(content) =>
        if !inv.fileWritten then Response(HttpInternalServerError, CsvCreationFailed(WriteFailed))
        else Response(HttpOk, Uploaded)
  }

  /** When records were extracted, the cluster was readable, and the records
      are complete exactly when the pods are. */
  lemma RecordsComplete(inv: Invocation)
    ensures ExtractRecords(inv).Ok? ==> ClusterReadable(inv)
    ensures ExtractRecords(inv).Ok? ==>
              ((forall i | 0 <= i < |ExtractRecords(inv).value| :: Complete(ExtractRecords(inv).value[i]))
               <==> PodsComplete(inv))
  {
    if ExtractRecords(inv).Ok? {
      var infos := ExtractRecords(inv).value;
      var zones := NodeZones(inv.nodeListing.value).value;
      var pods := inv.podListing.value;
      assert forall i | 0 <= i < |pods| :: PodRecord(pods[i], zones) == Ok(infos[i]);
    }
  }

  /** A failed upload changes nothing in the response. */
  lemma UploadDoesNotAffectResponse(inv: Invocation)
    ensures Handle(inv.(uploaded := false)) == Handle(inv.(uploaded := true))
  {
  }

  /** A listed pod without an IP address makes the invocation fail rather than
      being skipped. */
  lemma PodWithoutIpFails(inv: Invocation, k: int)
    requires inv.podListing.Ok? && 0 <= k < |inv.podListing.value|
    requires inv.podListing.value[k].ip.None?
    ensures Handle(inv).statusCode == HttpInternalServerError
  {
  }

  /** A listed pod without a Ready condition makes the invocation fail with a
      cluster error. */
  lemma PodWithoutReadyConditionFails(inv: Invocation, k: int)
    requires inv.podListing.Ok? && 0 <= k < |inv.podListing.value|
    requires inv.podListing.value[k].conditions.Some?
    requires forall j | 0 <= j < |inv.podListing.value[k].conditions.value| ::
               inv.podListing.value[k].conditions.value[j].kind != "Ready"
    ensures Handle(inv).statusCode == HttpInternalServerError
    ensures Handle(inv).body.ClusterRequestFailed?
  {
    assert !Extractable(inv.podListing.value[k]);
  }
}
