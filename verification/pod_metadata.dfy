/** The data transformations of the pod-metadata extractor: the node to
    availability-zone map, the per-pod records joined to it, and the CSV text
    written from those records. The Kubernetes listings arrive as values; every
    place where the Python code raises becomes an `Err`. */
module PodMetadata {
  import opened Results
  import Text

  /** Why a stage of the extractor fails. */
  datatype Error =
    | ListingFailed        // the cluster API call itself raised
    | LabelsMissing        // a node's or pod's `metadata.labels` is None
    | ConditionsMissing    // a pod's `status.conditions` is None
    | NoReadyCondition     // `next` found no condition of type "Ready"
    | TransitionTimeMissing // the Ready condition has no `last_transition_time`
    | NoneField            // a record value is None, so `",".join` raises
    | WriteFailed          // the local CSV file could not be written

  /** The placeholder the code writes for an absent zone or app label. */
  const NoneMarker := "<none>"

  /** The node label holding the availability zone. */
  const ZoneLabel := "topology.kubernetes.io/zone"

  /** The pod label naming the application; the environment default is "app". */
  const AppLabel := "app"

  datatype Node = Node(name: string, labels: Option<map<string, string>>)

  /** A pod condition; its transition time is carried already formatted as
      `%Y-%m-%dT%H:%M:%SZ`, since the formatting itself is not modelled. */
  datatype Condition = Condition(kind: string, lastTransitionTime: Option<string>)

  datatype Pod = Pod(
    name: Option<string>,
    labels: Option<map<string, string>>,
    ip: Option<string>,
    nodeName: Option<string>,
    conditions: Option<seq<Condition>>)

  /** One output record, fields in the order the code inserts them. */
  datatype PodInfo = PodInfo(
    name: Option<string>,
    ip: Option<string>,
    app: string,
    creationTime: string,
    node: Option<string>,
    az: string)

  // ---------------------------------------------------------------------------
  // Nodes

  /** The zone recorded for a node whose labels are `labels`. */
  function ZoneOf(labels: map<string, string>): string
  {
    if ZoneLabel in labels then labels[ZoneLabel] else NoneMarker
  }

  /** Node `i` is the last node of the listing that carries its name. */
  ghost predicate LastWithName(nodes: seq<Node>, i: int)
    requires 0 <= i < |nodes|
  {
    forall j | i < j < |nodes| :: nodes[j].name != nodes[i].name
  }

  /** The map the code builds by assigning `nodes_azs[name] = zone` for every
      listed node in turn. It raises when a node has no labels at all. */
  function NodeZones(nodes: seq<Node>): (r: Result<map<string, string>, Error>)
    ensures r.Ok? <==> forall i | 0 <= i < |nodes| :: nodes[i].labels.Some?
    ensures r.Err? ==> r.error == LabelsMissing
    ensures r.Ok? ==> r.value.Keys == set i | 0 <= i < |nodes| :: nodes[i].name
    ensures r.Ok? ==> forall i | 0 <= i < |nodes| && LastWithName(nodes, i) ::
                        r.value[nodes[i].name] == ZoneOf(nodes[i].labels.value)
    decreases |nodes|
  {
    if |nodes| == 0 then Ok(map[])
    else
      var init := nodes[..|nodes| - 1];
      var last := nodes[|nodes| - 1];
      match NodeZones(init)
      case Err(e) =>
        assert exists i | 0 <= i < |init| :: init[i].labels.None?;
        Err(e)
      case Ok(zones) =>
        match last.labels
        case None => Err(LabelsMissing)
        case Some(labels) =>
          NodeZonesStep(nodes, init, zones);
          Ok(zones[last.name := ZoneOf(labels)])
  }

  /** Adding the last node to the map of all the others keeps the contract of
      `NodeZones` (the inductive step of its proof). */
  lemma NodeZonesStep(nodes: seq<Node>, init: seq<Node>, zones: map<string, string>)
    requires |nodes| > 0 && init == nodes[..|nodes| - 1]
    requires forall i | 0 <= i < |init| :: init[i].labels.Some?
    requires nodes[|nodes| - 1].labels.Some?
    requires zones.Keys == set i | 0 <= i < |init| :: init[i].name
    requires forall i | 0 <= i < |init| && LastWithName(init, i) ::
               zones[init[i].name] == ZoneOf(init[i].labels.value)
    ensures forall i | 0 <= i < |nodes| :: nodes[i].labels.Some?
    ensures var last := nodes[|nodes| - 1];
            var r := zones[last.name := ZoneOf(last.labels.value)];
            && r.Keys == (set i | 0 <= i < |nodes| :: nodes[i].name)
            && forall i | 0 <= i < |nodes| && LastWithName(nodes, i) ::
                 r[nodes[i].name] == ZoneOf(nodes[i].labels.value)
  {
    var n := |nodes|;
    var last := nodes[n - 1];
    var r := zones[last.name := ZoneOf(last.labels.value)];
    forall i | 0 <= i < n ensures nodes[i].labels.Some? {
      if i < n - 1 { assert nodes[i] == init[i]; }
    }
    NodeNamesStep(nodes, init);
    assert r.Keys == (set i | 0 <= i < |nodes| :: nodes[i].name);
    forall i | 0 <= i < n && LastWithName(nodes, i)
      ensures r[nodes[i].name] == ZoneOf(nodes[i].labels.value)
    {
      if i < n - 1 {
        assert nodes[i] == init[i];
        LastWithNameInInit(nodes, init, i);
        assert r[nodes[i].name] == zones[init[i].name];
      }
    }
  }

  /** The names of a listing are those of all but its last node, plus the last one's. */
  lemma NodeNamesStep(nodes: seq<Node>, init: seq<Node>)
    requires |nodes| > 0 && init == nodes[..|nodes| - 1]
    ensures (set i | 0 <= i < |nodes| :: nodes[i].name)
         == (set i | 0 <= i < |init| :: init[i].name) + {nodes[|nodes| - 1].name}
  {
    forall i | 0 <= i < |init|
      ensures nodes[i].name in (set i | 0 <= i < |init| :: init[i].name)
    {
      assert init[i].name == nodes[i].name;
    }
  }

  /** A node before the last that is the last with its name among all nodes
      is so among the earlier nodes too, and its name differs from the last's. */
  lemma LastWithNameInInit(nodes: seq<Node>, init: seq<Node>, i: int)
    requires |nodes| > 0 && init == nodes[..|nodes| - 1]
    requires 0 <= i < |init| && LastWithName(nodes, i)
    ensures LastWithName(init, i)
    ensures nodes[|nodes| - 1].name != init[i].name
  {
    forall j | i < j < |init| ensures init[j].name != init[i].name {
      assert init[j] == nodes[j];
    }
  }

  // ---------------------------------------------------------------------------
  // Pods

  /** The position of the first condition of type "Ready", as `next(filter(...))` finds it. */
  function FirstReady(conditions: seq<Condition>): (r: Option<nat>)
    ensures r.Some? ==> r.value < |conditions| && conditions[r.value].kind == "Ready"
    ensures r.Some? ==> forall j | 0 <= j < r.value :: conditions[j].kind != "Ready"
    ensures r.None? <==> forall j | 0 <= j < |conditions| :: conditions[j].kind != "Ready"
    decreases |conditions|
  {
    if |conditions| == 0 then None
    else if conditions[0].kind == "Ready" then Some(0)
    else match FirstReady(conditions[1..])
      case None => None
      case Some(k) => Some(k + 1)
  }

  /** The zone a pod's record gets: its node's entry in the map, or the marker
      when the pod has no node or the node was not listed. */
  function PodZone(nodeName: Option<string>, zones: map<string, string>): string
  {
    if nodeName.Some? && nodeName.value in zones then zones[nodeName.value] else NoneMarker
  }

  /** The pod can be turned into a record without raising. */
  predicate Extractable(pod: Pod)
  {
    && pod.conditions.Some?
    && FirstReady(pod.conditions.value).Some?
    && pod.conditions.value[FirstReady(pod.conditions.value).value].lastTransitionTime.Some?
    && pod.labels.Some?
  }

  /** The record the loop body builds for one pod, or the error it raises. */
  function PodRecord(pod: Pod, zones: map<string, string>): (r: Result<PodInfo, Error>)
    ensures r.Ok? <==> Extractable(pod)
    ensures pod.conditions.None? ==> r == Err(ConditionsMissing)
    ensures pod.conditions.Some? && FirstReady(pod.conditions.value).None? ==> r == Err(NoReadyCondition)
    ensures r.Ok? ==>
      var ready := pod.conditions.value[FirstReady(pod.conditions.value).value];
      && r.value.name == pod.name
      && r.value.ip == pod.ip
      && r.value.app == (if AppLabel in pod.labels.value then pod.labels.value[AppLabel] else NoneMarker)
      && r.value.creationTime == ready.lastTransitionTime.value
      && r.value.node == pod.nodeName
      && r.value.az == PodZone(pod.nodeName, zones)
  {
    match pod.conditions
    case None => Err(ConditionsMissing)
    case Some(conditions) =>
      match FirstReady(conditions)
      case None => Err(NoReadyCondition)
      case Some(k) =>
        match conditions[k].lastTransitionTime
        case None => Err(TransitionTimeMissing)
        case Some(time) =>
          match pod.labels
          case None => Err(LabelsMissing)
          case Some(labels) =>
            var app := if AppLabel in labels then labels[AppLabel] else NoneMarker;
            Ok(PodInfo(pod.name, pod.ip, app, time, pod.nodeName, PodZone(pod.nodeName, zones)))
  }

  /** `get_pods_info`: one record per listed pod, in listing order; the first
      pod that cannot be turned into a record aborts the whole list. */
  function PodsInfo(pods: seq<Pod>, zones: map<string, string>): (r: Result<seq<PodInfo>, Error>)
    ensures r.Ok? <==> forall i | 0 <= i < |pods| :: Extractable(pods[i])
    ensures r.Ok? ==> |r.value| == |pods|
    ensures r.Ok? ==> forall i | 0 <= i < |pods| :: PodRecord(pods[i], zones) == Ok(r.value[i])
    ensures r.Err? ==> exists k | 0 <= k < |pods| ::
              && PodRecord(pods[k], zones) == Err(r.error)
              && forall j | 0 <= j < k :: Extractable(pods[j])
    decreases |pods|
  {
    if |pods| == 0 then Ok([])
    else
      match PodRecord(pods[0], zones)
      case Err(e) =>
        assert !Extractable(pods[0]);
        Err(e)
      case Ok(info) =>
        var tail := pods[1..];
        match PodsInfo(tail, zones)
        case Err(e) =>
          FirstFailureShift(pods, tail, zones, e);
          Err(e)
        case Ok(rest) =>
          RecordsShift(pods, tail, zones, info, rest);
          Ok([info] + rest)
  }

  /** The records of a listing are the head's record followed by the tail's. */
  lemma RecordsShift(pods: seq<Pod>, tail: seq<Pod>, zones: map<string, string>, info: PodInfo, rest: seq<PodInfo>)
    requires |pods| > 0 && tail == pods[1..] && PodRecord(pods[0], zones) == Ok(info)
    requires |rest| == |tail|
    requires forall i | 0 <= i < |tail| :: PodRecord(tail[i], zones) == Ok(rest[i])
    ensures forall i | 0 <= i < |pods| :: PodRecord(pods[i], zones) == Ok(([info] + rest)[i])
    ensures forall i | 0 <= i < |pods| :: Extractable(pods[i])
  {
    forall i | 0 <= i < |pods| ensures PodRecord(pods[i], zones) == Ok(([info] + rest)[i]) {
      if i > 0 { assert pods[i] == tail[i - 1]; }
    }
  }

  /** A failure found first in the tail of a listing whose head is fine is
      the first failure of the whole listing. */
  lemma FirstFailureShift(pods: seq<Pod>, tail: seq<Pod>, zones: map<string, string>, e: Error)
    requires |pods| > 0 && tail == pods[1..] && Extractable(pods[0])
    requires exists k | 0 <= k < |tail| ::
               && PodRecord(tail[k], zones) == Err(e)
               && forall j | 0 <= j < k :: Extractable(tail[j])
    ensures exists k | 0 <= k < |pods| ::
              && PodRecord(pods[k], zones) == Err(e)
              && forall j | 0 <= j < k :: Extractable(pods[j])
  {
    var k :| 0 <= k < |tail| && PodRecord(tail[k], zones) == Err(e)
             && forall j | 0 <= j < k :: Extractable(tail[j]);
    assert pods[k + 1] == tail[k];
    forall j | 0 <= j < k + 1 ensures Extractable(pods[j]) {
      if j > 0 { assert pods[j] == tail[j - 1]; }
    }
  }

  // ---------------------------------------------------------------------------
  // CSV content

  /** The column names of the header row, in order. */
  const HeaderFields: seq<string> := ["name", "ip", "app", "creation_time", "node", "az"]

  /** `",".join([...])` over the header fields. */
  const HeaderRow: string := Text.Join(HeaderFields, ',')

  /** The header row is the literal `name,ip,app,creation_time,node,az`. */
  lemma HeaderRowText()
    ensures HeaderRow == "name,ip,app,creation_time,node,az"
  {
    Text.JoinSix("name", "ip", "app", "creation_time", "node", "az", ',');
  }


  /** The keys of the dict built for each pod, in insertion order, which is
      the order `info.values()` yields the values in. */
  const RecordKeys: seq<string> := ["name", "ip", "app", "creation_time", "node", "az"]

  /** `info[key]` for the dict built for each pod. A key the dict lacks gives
      None as well; only the six keys are ever looked up. */
  function RecordValue(info: PodInfo, key: string): Option<string>
  {
    if key == "name" then info.name
    else if key == "ip" then info.ip
    else if key == "app" then Some(info.app)
    else if key == "creation_time" then Some(info.creationTime)
    else if key == "node" then info.node
    else if key == "az" then Some(info.az)
    else None
  }

  /** No value of the record is None, so joining it does not raise. */
  predicate Complete(info: PodInfo)
  {
    info.name.Some? && info.ip.Some? && info.node.Some?
  }

  /** The six values of a complete record as strings, in the order of the
      dict's keys. */
  function Fields(info: PodInfo): (r: seq<string>)
    requires Complete(info)
    ensures |r| == |RecordKeys|
    ensures forall k | 0 <= k < |r| :: Some(r[k]) == RecordValue(info, RecordKeys[k])
  {
    [info.name.value, info.ip.value, info.app, info.creationTime, info.node.value, info.az]
  }

  /** The dict's keys, in insertion order, are the header's column names, so
      each row lists its values in the header's order. */
  lemma RecordKeysAreHeader()
    ensures RecordKeys == HeaderFields
  {
  }

  /** Each field of a row is the record's value under the header column at the
      same position. */
  lemma FieldsInHeaderOrder(info: PodInfo)
    requires Complete(info)
    ensures |Fields(info)| == |HeaderFields|
    ensures forall k | 0 <= k < |HeaderFields| :: Some(Fields(info)[k]) == RecordValue(info, HeaderFields[k])
  {
    RecordKeysAreHeader();
  }

  /** `",".join(info.values())` raises exactly when the value under some header
      column is None. */
  lemma CompleteIffValuesPresent(info: PodInfo)
    ensures Complete(info) <==> forall k | 0 <= k < |HeaderFields| :: RecordValue(info, HeaderFields[k]).Some?
  {
    RecordKeysAreHeader();
    assert RecordValue(info, HeaderFields[0]) == info.name;
    assert RecordValue(info, HeaderFields[1]) == info.ip;
    assert RecordValue(info, HeaderFields[4]) == info.node;
  }

  /** The data rows, `",".join(info.values())` for each record; None as soon
      as one record has a None value. */
  function Rows(infos: seq<PodInfo>): (r: Option<seq<string>>)
    ensures r.Some? <==> forall i | 0 <= i < |infos| :: Complete(infos[i])
    ensures r.Some? ==> |r.value| == |infos|
    ensures r.Some? ==> forall i | 0 <= i < |infos| :: r.value[i] == Text.Join(Fields(infos[i]), ',')
    decreases |infos|
  {
    if |infos| == 0 then Some([])
    else if !Complete(infos[0]) then None
    else
      match Rows(infos[1..])
      case None => None
      case Some(rest) =>
        assert forall i | 0 < i < |infos| :: infos[i] == infos[1..][i - 1];
        Some([Text.Join(Fields(infos[0]), ',')] + rest)
  }

  /** The text `create_pods_metadata_csv_file` writes: the header and a newline,
      then the rows separated (not terminated) by newlines. */
  function CsvContent(infos: seq<PodInfo>): (r: Result<string, Error>)
    ensures r.Ok? <==> forall i | 0 <= i < |infos| :: Complete(infos[i])
    ensures r.Err? ==> r.error == NoneField
    ensures r.Ok? ==> |HeaderRow| < |r.value| && r.value[..|HeaderRow| + 1] == HeaderRow + "\n"
    ensures |infos| == 0 ==> r == Ok("name,ip,app,creation_time,node,az\n")
  {
    match Rows(infos)
    case None => Err(NoneField)
    case Some(rows) =>
      HeaderRowText();
      assert |rows| == 0 ==> HeaderRow + "\n" + Text.Join(rows, '\n') == "name,ip,app,creation_time,node,az\n";
      Ok(HeaderRow + "\n" + Text.Join(rows, '\n'))
  }

  // ---------------------------------------------------------------------------
  // Reading the CSV back

  /** No field holds a comma or a newline, the characters the format does not escape. */
  predicate Clean(info: PodInfo)
    requires Complete(info)
  {
    forall k | 0 <= k < |Fields(info)| :: ',' !in Fields(info)[k] && '\n' !in Fields(info)[k]
  }

  /** A reader for the file: the header's fields and each data line's fields.
      A body that is one empty line means there are no data rows. */
  function ParseCsv(content: string): (seq<string>, seq<seq<string>>)
  {
    var lines := Text.Split(content, '\n');
    var body := lines[1..];
    var rows := if body == [""] then [] else body;
    (Text.Split(lines[0], ','), seq(|rows|, i requires 0 <= i < |rows| => Text.Split(rows[i], ',')))
  }

  /** The header row is one line, and splitting it on commas gives the header fields. */
  lemma HeaderReadBack()
    ensures '\n' !in HeaderRow
    ensures Text.Split(HeaderRow, ',') == HeaderFields
  {
    Text.JoinAvoids(HeaderFields, ',', '\n');
    Text.SplitJoin(HeaderFields, ',');
  }

  /** A file's first line is a newline-free header; the rest are the lines of the body. */
  lemma FileLines(header: string, body: string)
    requires '\n' !in header
    ensures Text.Split(header + "\n" + body, '\n') == [header] + Text.Split(body, '\n')
  {
    assert header + "\n" + body == header + ['\n'] + body;
    Text.SplitAtFirstSeparator(header, '\n', body);
  }

  /** The data lines of newline-joined rows are the rows themselves, and no
      row list reads as the empty body, since every row holds a comma. */
  lemma BodyLines(rows: seq<string>)
    requires forall i | 0 <= i < |rows| :: '\n' !in rows[i] && ',' in rows[i]
    ensures |rows| == 0 ==> Text.Split(Text.Join(rows, '\n'), '\n') == [""]
    ensures |rows| > 0 ==> Text.Split(Text.Join(rows, '\n'), '\n') == rows && rows != [""]
  {
    if |rows| > 0 {
      Text.SplitJoin(rows, '\n');
      assert rows[0] != "" by { assert ',' in rows[0]; }
    }
  }

  /** Reading a file made of a one-line header and newline-separated rows
      gives the header's fields and, for each row, its comma-separated fields. */
  lemma ParseWrittenFile(header: string, rows: seq<string>, fieldLists: seq<seq<string>>)
    requires '\n' !in header
    requires |rows| == |fieldLists|
    requires forall i | 0 <= i < |rows| ::
               '\n' !in rows[i] && ',' in rows[i] && Text.Split(rows[i], ',') == fieldLists[i]
    ensures ParseCsv(header + "\n" + Text.Join(rows, '\n')) == (Text.Split(header, ','), fieldLists)
  {
    var joined := Text.Join(rows, '\n');
    FileLines(header, joined);
    BodyLines(rows);
    var content := header + "\n" + joined;
    var lines := Text.Split(content, '\n');
    assert lines[0] == header;
    assert lines[1..] == Text.Split(joined, '\n');
    var kept := if lines[1..] == [""] then [] else lines[1..];
    assert kept == rows;
    var parsed := seq(|kept|, i requires 0 <= i < |kept| => Text.Split(kept[i], ','));
    assert parsed == fieldLists by {
      forall i | 0 <= i < |rows| ensures parsed[i] == fieldLists[i] {
        assert parsed[i] == Text.Split(rows[i], ',');
      }
    }
    assert ParseCsv(content) == (Text.Split(lines[0], ','), parsed);
  }

  /** Reading back what the extractor writes gives the header fields and,
      line by line, the six fields of every record, provided no field holds a
      comma or a newline. */
  lemma CsvRoundTrip(infos: seq<PodInfo>)
    requires forall i | 0 <= i < |infos| :: Complete(infos[i]) && Clean(infos[i])
    ensures CsvContent(infos).Ok?
    ensures ParseCsv(CsvContent(infos).value) ==
              (HeaderFields, seq(|infos|, i requires 0 <= i < |infos| => Fields(infos[i])))
  {
    var rows := Rows(infos).value;
    RowsReadBack(infos, rows);
    var expected := seq(|infos|, i requires 0 <= i < |infos| => Fields(infos[i]));
    HeaderReadBack();
    ParseWrittenFile(HeaderRow, rows, expected);
  }

  /** Every data row of clean records is a single line holding a comma, and
      splitting it on commas gives back the record's fields. */
  lemma RowsReadBack(infos: seq<PodInfo>, rows: seq<string>)
    requires forall i | 0 <= i < |infos| :: Complete(infos[i]) && Clean(infos[i])
    requires Rows(infos) == Some(rows)
    ensures forall i | 0 <= i < |rows| ::
              && '\n' !in rows[i]
              && ',' in rows[i]
              && Text.Split(rows[i], ',') == Fields(infos[i])
  {
    forall i | 0 <= i < |rows|
      ensures '\n' !in rows[i]
      ensures ',' in rows[i]
      ensures Text.Split(rows[i], ',') == Fields(infos[i])
    {
      Text.JoinAvoids(Fields(infos[i]), ',', '\n');
      Text.SplitJoin(Fields(infos[i]), ',');
      JoinHasSeparator(Fields(infos[i]), ',');
    }
  }

  /** Joining two or more parts puts the separator into the result. */
  lemma JoinHasSeparator(parts: seq<string>, sep: char)
    requires |parts| >= 2
    ensures sep in Text.Join(parts, sep)
  {
    var j := Text.Join(parts, sep);
    assert j == parts[0] + [sep] + Text.Join(parts[1..], sep);
    assert j[|parts[0]|] == sep;
  }
}
