/** The column lists of the three Glue tables, and their agreement with the
    two formats that fill those tables: the extractor's CSV header and the VPC
    flow-log record format. */
module GlueColumns {
  import opened Results
  import Text
  import PodMetadata

  datatype ColumnType = StringType | BigIntType | TimestampType

  datatype Column = Column(name: string, columnType: ColumnType)

  const PodTableColumns: seq<Column> := [
    Column("name", StringType),
    Column("ip", StringType),
    Column("app", StringType),
    Column("creation_time", StringType),
    Column("node", StringType),
    Column("az", StringType)
  ]

  const VpcFlowLogsTableColumns: seq<Column> := [
    Column("az_id", StringType),
    Column("flow_direction", StringType),
    Column("pkt_srcaddr", StringType),
    Column("pkt_dstaddr", StringType),
    Column("start", BigIntType),
    Column("bytes", BigIntType)
  ]

  const AthenaResultsTableColumns: seq<Column> := [
    Column("timestamp", TimestampType),
    Column("cross_az_traffic", StringType),
    Column("bytes_transfered", BigIntType)
  ]

  /** The fields the flow logs are configured to record, as written in the
      log format (the VPC flow-log construct's `FLOW_LOGS_FORMAT`); the one
      literal is spelled here as its six fields and the five spaces between them. */
  const FlowLogsFormat: string :=
    "${az-id}" + " " + "${flow-direction}" + " " + "${pkt-srcaddr}" + " " + "${pkt-dstaddr}" + " " + "${start}" + " " + "${bytes}"

  function Names(columns: seq<Column>): (r: seq<string>)
    ensures |r| == |columns|
    ensures forall i | 0 <= i < |r| :: r[i] == columns[i].name
  {
    seq(|columns|, i requires 0 <= i < |columns| => columns[i].name)
  }

  /** Every `-` replaced by `_`, the rest unchanged. */
  function Underscored(s: string): (r: string)
    ensures |r| == |s|
    ensures forall i | 0 <= i < |s| :: r[i] == (if s[i] == '-' then '_' else s[i])
  {
    seq(|s|, i requires 0 <= i < |s| => if s[i] == '-' then '_' else s[i])
  }

  /** The column name a flow-log format field is stored under: `${` and `}`
      stripped, each `-` replaced by `_`. */
  function ColumnNameOf(field: string): (r: Option<string>)
    ensures r.Some? <==> 3 <= |field| && field[..2] == "${" && field[|field| - 1] == '}'
    ensures r.Some? ==> |r.value| == |field| - 3
    ensures r.Some? ==> forall i | 0 <= i < |r.value| ::
              r.value[i] == (if field[i + 2] == '-' then '_' else field[i + 2])
  {
    if 3 <= |field| && field[..2] == "${" && field[|field| - 1] == '}' then
      Some(Underscored(field[2..|field| - 1]))
    else None
  }

  /** The pod table's columns are, in order, the fields of the CSV header the
      extractor writes, and all of them are strings. */
  lemma PodColumnsMatchCsvHeader()
    ensures Names(PodTableColumns) == PodMetadata.HeaderFields
    ensures Text.Split(PodMetadata.HeaderRow, ',') == Names(PodTableColumns)
    ensures forall i | 0 <= i < |PodTableColumns| :: PodTableColumns[i].columnType == StringType
  {
    PodMetadata.HeaderReadBack();
  }

  /** The flow-log format, field by field. */
  const FlowLogsFields: seq<string> :=
    ["${az-id}", "${flow-direction}", "${pkt-srcaddr}", "${pkt-dstaddr}", "${start}", "${bytes}"]

  /** The format is its fields separated by single spaces. */
  lemma FlowLogsFormatFields()
    ensures Text.Split(FlowLogsFormat, ' ') == FlowLogsFields
  {
    var f := FlowLogsFields;
    Text.JoinSix(f[0], f[1], f[2], f[3], f[4], f[5], ' ');
    assert f == [f[0], f[1], f[2], f[3], f[4], f[5]];
    assert Text.Join(f, ' ') == FlowLogsFormat;
    Text.SplitJoin(f, ' ');
  }

  /** The column a format field is stored under, computed for one field. */
  lemma ColumnNameOfField(field: string, inner: string, column: string)
    requires field == "${" + inner + "}"
    requires Underscored(inner) == column
    ensures ColumnNameOf(field) == Some(column)
  {
    assert field[..2] == "${";
    assert field[2..|field| - 1] == inner;
  }

  /** Each field of the flow-log format is stored under the column at its position. */
  lemma FlowLogFieldColumns()
    ensures forall i | 0 <= i < |FlowLogsFields| ::
              ColumnNameOf(FlowLogsFields[i]) == Some(VpcFlowLogsTableColumns[i].name)
  {
    var f := FlowLogsFields;
    var c := VpcFlowLogsTableColumns;
    assert ColumnNameOf(f[0]) == Some(c[0].name) by {
      assert f[0] == "${" + "az-id" + "}";
      ColumnNameOfField(f[0], "az-id", "az_id");
    }
    assert ColumnNameOf(f[1]) == Some(c[1].name) by {
      assert f[1] == "${" + "flow-direction" + "}";
      ColumnNameOfField(f[1], "flow-direction", "flow_direction");
    }
    assert ColumnNameOf(f[2]) == Some(c[2].name) by {
      assert f[2] == "${" + "pkt-srcaddr" + "}";
      ColumnNameOfField(f[2], "pkt-srcaddr", "pkt_srcaddr");
    }
    assert ColumnNameOf(f[3]) == Some(c[3].name) by {
      assert f[3] == "${" + "pkt-dstaddr" + "}";
      ColumnNameOfField(f[3], "pkt-dstaddr", "pkt_dstaddr");
    }
    assert ColumnNameOf(f[4]) == Some(c[4].name) by {
      assert f[4] == "${" + "start" + "}";
      ColumnNameOfField(f[4], "start", "start");
    }
    assert ColumnNameOf(f[5]) == Some(c[5].name) by {
      assert f[5] == "${" + "bytes" + "}";
      ColumnNameOfField(f[5], "bytes", "bytes");
    }
  }

  /** The flow-log table's columns are, in order, the fields of the flow-log
      format under their column names. */
  lemma FlowLogColumnsMatchFormat()
    ensures var fields := Text.Split(FlowLogsFormat, ' ');
            && |fields| == |VpcFlowLogsTableColumns|
            && forall i | 0 <= i < |fields| :: ColumnNameOf(fields[i]) == Some(VpcFlowLogsTableColumns[i].name)
  {
    FlowLogsFormatFields();
    FlowLogFieldColumns();
  }

  /** In the flow-log table `start` and `bytes` are big integers and the other
      four columns are strings. */
  lemma FlowLogColumnTypes()
    ensures VpcFlowLogsTableColumns[4] == Column("start", BigIntType)
    ensures VpcFlowLogsTableColumns[5] == Column("bytes", BigIntType)
    ensures forall i | 0 <= i < 4 :: VpcFlowLogsTableColumns[i].columnType == StringType
  {
  }

  /** The results table has exactly three columns: a timestamp, the cross-AZ
      indicator as a string, and the byte count as a big integer. */
  lemma ResultsColumns()
    ensures Names(AthenaResultsTableColumns) == ["timestamp", "cross_az_traffic", "bytes_transfered"]
    ensures AthenaResultsTableColumns[0].columnType == TimestampType
    ensures AthenaResultsTableColumns[1].columnType == StringType
    ensures AthenaResultsTableColumns[2].columnType == BigIntType
  {
  }
}
