/** CSV ingestion: guessing the token-id column, the preview used for column
    selection, and turning rows into item records with user-chosen column roles
    (components/rarity/utils.ts:14-99). Lines are split on '\n' and cells on ',';
    quoted cells are not supported, as in the source. */
module CsvImport {
  import opened Wrappers
  import opened Text
  import opened JsValues
  import opened TraitEntries

  datatype WizardStep = NameSelection | AttributeSelection

  datatype CsvColumnSelection = CsvColumnSelection(
    headers: seq<string>,
    sampleRows: seq<seq<string>>,
    tokenIdColumn: Option<string>,
    nameColumn: Option<string>,
    attributeColumns: seq<string>,
    step: WizardStep)

  const TooShortMessage := "CSV must have at least a header row and one data row"

  const TokenIdPatterns: seq<string> := ["token id", "tokenid", "token_id", "id", "#"]

  /** The lowercase header contains one of the token-id patterns. */
  predicate LooksLikeTokenId(header: string) {
    exists k :: 0 <= k < |TokenIdPatterns| && Contains(ToLower(header), TokenIdPatterns[k])
  }

  /** `headers[i]` matches and no earlier header does. */
  predicate FirstMatchAt(headers: seq<string>, i: int) {
    0 <= i < |headers| && LooksLikeTokenId(headers[i])
    && forall j :: 0 <= j < i ==> !LooksLikeTokenId(headers[j])
  }

  /** `headers.find(...)`. */
  function FindTokenIdHeader(headers: seq<string>): (r: Option<string>)
    ensures r.None? <==> forall i :: 0 <= i < |headers| ==> !LooksLikeTokenId(headers[i])
    ensures r.Some? ==> exists i :: FirstMatchAt(headers, i) && headers[i] == r.value
  {
    if headers == [] then None
    else if LooksLikeTokenId(headers[0]) then
      assert FirstMatchAt(headers, 0);
      Some(headers[0])
    else
      var r := FindTokenIdHeader(headers[1..]);
      assert forall i :: 0 < i < |headers| ==> headers[1..][i - 1] == headers[i];
      assert r.Some? ==> exists i :: FirstMatchAt(headers, i) && headers[i] == r.value by {
        if r.Some? {
          var i :| FirstMatchAt(headers[1..], i) && headers[1..][i] == r.value;
          assert FirstMatchAt(headers, i + 1);
        }
      }
      r
  }

  /** `detectTokenIdColumn`: the first header that looks like a token id, or
      null; the `|| null` never fires because a matching header is never empty. */
  function DetectTokenIdColumn(headers: seq<string>): (r: Option<string>)
    ensures r.None? <==> forall i :: 0 <= i < |headers| ==> !LooksLikeTokenId(headers[i])
    ensures r.Some? ==> exists i :: FirstMatchAt(headers, i) && headers[i] == r.value
  {
    match FindTokenIdHeader(headers)
    case None => None
    case Some(h) =>
      assert h != "" by {
        var i :| FirstMatchAt(headers, i) && headers[i] == h;
      }
      if h != "" then Some(h) else None
  }

  /** `lines.filter(line => line.trim())`. */
  function KeepNonBlank(lines: seq<string>): (r: seq<string>)
    ensures |r| <= |lines|
  {
    if lines == [] then []
    else
      var rest := KeepNonBlank(lines[..|lines| - 1]);
      var last := lines[|lines| - 1];
      if Trim(last) != "" then rest + [last] else rest
  }

  /** The non-blank lines of the text, in order. */
  function NonBlankLines(csvText: string): seq<string> {
    KeepNonBlank(Split(csvText, '\n'))
  }

  /** `line.split(',').map(v => v.trim())`. */
  function Cells(line: string): (r: seq<string>)
    ensures |r| >= 1
  {
    var parts := Split(line, ',');
    seq(|parts|, k requires 0 <= k < |parts| => Trim(parts[k]))
  }

  function Min(a: int, b: int): int {
    if a < b then a else b
  }

  /** `parseCsvForColumnSelection`: headers, up to five preview rows and the
      detected token-id column; fails when fewer than two non-blank lines exist. */
  method ParseCsvForColumnSelection(csvText: string) returns (r: Result<CsvColumnSelection>)
    ensures r.Failure? <==> |NonBlankLines(csvText)| < 2
    ensures r.Failure? ==> r.error == TooShortMessage
    ensures r.Success? ==>
      var lines := NonBlankLines(csvText);
      && r.value.headers == Cells(lines[0])
      && |r.value.sampleRows| == Min(5, |lines| - 1)
      && (forall k :: 0 <= k < |r.value.sampleRows| ==> r.value.sampleRows[k] == Cells(lines[k + 1]))
      && r.value.tokenIdColumn == DetectTokenIdColumn(r.value.headers)
      && r.value.nameColumn == None
      && r.value.attributeColumns == []
      && r.value.step == NameSelection
  {
    var lines := NonBlankLines(csvText);
    if |lines| < 2 {
      return Failure(TooShortMessage);
    }
    var headers := Cells(lines[0]);
    var sampleRows := PreviewRows(lines);
    r := Success(CsvColumnSelection(headers, sampleRows, DetectTokenIdColumn(headers), None, [], NameSelection));
  }

  /** The preview loop: the cells of the lines after the header, five at most. */
  method PreviewRows(lines: seq<string>) returns (sampleRows: seq<seq<string>>)
    ensures |sampleRows| == if |lines| <= 1 then 0 else Min(5, |lines| - 1)
    ensures forall k :: 0 <= k < |sampleRows| ==> k + 1 < |lines| && sampleRows[k] == Cells(lines[k + 1])
  {
    sampleRows := [];
    var i := 1;
    while i < Min(6, |lines|)
      invariant 1 <= i
      invariant |sampleRows| == i - 1
      invariant i <= 1 || i <= Min(6, |lines|)
      invariant forall k :: 0 <= k < i - 1 ==> k + 1 < |lines| && sampleRows[k] == Cells(lines[k + 1])
    {
      sampleRows := sampleRows + [Cells(lines[i])];
      i := i + 1;
    }
  }

  /** The record and the attribute list being built for one row. */
  datatype RowState = RowState(item: Item, attributes: seq<Value>)

  /** The trait entry a CSV attribute cell becomes. */
  function AttributeEntry(header: string, value: string): Value {
    Obj([Field("trait_type", Str(header)), Field("value", Str(value))])
  }

  /** One cell of a row: roles are tried in the order token id, name, attribute;
      empty cells and attribute cells reading "none" in any case are skipped. */
  function ApplyCell(st: RowState, header: string, value: string, sel: CsvColumnSelection): RowState {
    if value == "" then st
    else if Some(header) == sel.tokenIdColumn then st.(item := Put(st.item, "tokenId", Str(value)))
    else if Some(header) == sel.nameColumn then st.(item := Put(st.item, "name", Str(value)))
    else if header in sel.attributeColumns then
      if ToLower(value) != "none" then st.(attributes := st.attributes + [AttributeEntry(header, value)])
      else st
    else st
  }

  /** The state after the first `j` cells of a row. */
  function ApplyCells(headers: seq<string>, values: seq<string>, sel: CsvColumnSelection, j: nat): RowState
    requires j <= |headers| && j <= |values|
  {
    if j == 0 then RowState([], [])
    else ApplyCell(ApplyCells(headers, values, sel, j - 1), headers[j - 1], values[j - 1], sel)
  }

  /** `Token #<tokenId or i - 1>`. */
  function DefaultName(item: Item, rowIndex: int): string {
    "Token #" + match Get(item, "tokenId") {
      case Some(t) => if Truthy(t) then ToJsString(t) else IntToString(rowIndex)
      case None => IntToString(rowIndex)
    }
  }

  /** Attach the attribute list, then a default name when none is set. */
  function FinishRow(st: RowState, lineIndex: int): Item {
    var withAttributes := Put(st.item, "attributes", Arr(st.attributes));
    match Get(withAttributes, "name") {
      case Some(n) =>
        if Truthy(n) then withAttributes
        else Put(withAttributes, "name", Str(DefaultName(withAttributes, lineIndex - 1)))
      case None => Put(withAttributes, "name", Str(DefaultName(withAttributes, lineIndex - 1)))
    }
  }

  predicate AllEmpty(values: seq<string>) {
    forall k :: 0 <= k < |values| ==> values[k] == ""
  }

  /** The record built from the line at `lineIndex`. */
  function RowItem(headers: seq<string>, values: seq<string>, sel: CsvColumnSelection, lineIndex: int): Item {
    FinishRow(ApplyCells(headers, values, sel, Min(|headers|, |values|)), lineIndex)
  }

  /** A cell that becomes a trait entry: non-empty, in an attribute column that is
      neither the token-id nor the name column, and not reading "none" in any case. */
  predicate AttributeCell(headers: seq<string>, values: seq<string>, sel: CsvColumnSelection, j: int) {
    0 <= j < |headers| && j < |values| && values[j] != ""
    && Some(headers[j]) != sel.tokenIdColumn && Some(headers[j]) != sel.nameColumn
    && headers[j] in sel.attributeColumns && ToLower(values[j]) != "none"
  }

  /** The trait entries of a row are exactly the entries of its attribute cells. */
  lemma {:induction false} ApplyCellsAttributes(headers: seq<string>, values: seq<string>, sel: CsvColumnSelection, n: nat)
    requires n <= |headers| && n <= |values|
    ensures forall a :: a in ApplyCells(headers, values, sel, n).attributes <==>
      exists j :: 0 <= j < n && AttributeCell(headers, values, sel, j) && a == AttributeEntry(headers[j], values[j])
  {
    if n > 0 {
      ApplyCellsAttributes(headers, values, sel, n - 1);
      var before := ApplyCells(headers, values, sel, n - 1).attributes;
      var after := ApplyCells(headers, values, sel, n).attributes;
      if AttributeCell(headers, values, sel, n - 1) {
        assert after == before + [AttributeEntry(headers[n - 1], values[n - 1])];
      } else {
        assert after == before;
      }
    }
  }

  /** The two columns whose cell becomes a property of the record. */
  datatype Role = TokenIdRole | NameRole

  /** Cell `j` is non-empty and fills `role`; the token-id column wins when a
      header is chosen for both. */
  predicate RoleCell(headers: seq<string>, values: seq<string>, sel: CsvColumnSelection, j: int, role: Role) {
    0 <= j < |headers| && j < |values| && values[j] != ""
    && match role
       case TokenIdRole => Some(headers[j]) == sel.tokenIdColumn
       case NameRole => Some(headers[j]) != sel.tokenIdColumn && Some(headers[j]) == sel.nameColumn
  }

  /** The index of the last cell among the first `n` that fills `role`. */
  function LastRoleCell(headers: seq<string>, values: seq<string>, sel: CsvColumnSelection, n: nat, role: Role): (r: Option<nat>)
    requires n <= |headers| && n <= |values|
    ensures r.Some? ==> r.value < n
  {
    if n == 0 then None
    else if RoleCell(headers, values, sel, n - 1, role) then Some(n - 1)
    else LastRoleCell(headers, values, sel, n - 1, role)
  }

  /** No cell fills the role exactly when none is found; otherwise the one found
      fills it and no later cell does. */
  lemma {:induction false} LastRoleCellSpec(headers: seq<string>, values: seq<string>, sel: CsvColumnSelection, n: nat, role: Role)
    requires n <= |headers| && n <= |values|
    ensures LastRoleCell(headers, values, sel, n, role).None? <==>
      forall j :: 0 <= j < n ==> !RoleCell(headers, values, sel, j, role)
    ensures LastRoleCell(headers, values, sel, n, role).Some? ==>
      var j := LastRoleCell(headers, values, sel, n, role).value;
      j < n && RoleCell(headers, values, sel, j, role)
      && forall k :: j < k < n ==> !RoleCell(headers, values, sel, k, role)
  {
    if n > 0 && !RoleCell(headers, values, sel, n - 1, role) {
      LastRoleCellSpec(headers, values, sel, n - 1, role);
    }
  }

  /** What the cell loop leaves in the record under a role's property: the
      value of the last cell filling that role, later cells overwriting earlier ones. */
  function RoleValue(headers: seq<string>, values: seq<string>, sel: CsvColumnSelection, n: nat, role: Role): Option<Value>
    requires n <= |headers| && n <= |values|
  {
    match LastRoleCell(headers, values, sel, n, role)
    case Some(j) => Some(Str(values[j]))
    case None => None
  }

  function RoleKey(role: Role): string {
    match role
    case TokenIdRole => "tokenId"
    case NameRole => "name"
  }

  /** After the first `n` cells, `tokenId` and `name` hold the last cell of their
      column, and are unset when no cell filled them. */
  lemma {:induction false} ApplyCellsRoles(headers: seq<string>, values: seq<string>, sel: CsvColumnSelection, n: nat)
    requires n <= |headers| && n <= |values|
    ensures Get(ApplyCells(headers, values, sel, n).item, "tokenId") == RoleValue(headers, values, sel, n, TokenIdRole)
    ensures Get(ApplyCells(headers, values, sel, n).item, "name") == RoleValue(headers, values, sel, n, NameRole)
  {
    if n > 0 {
      ApplyCellsRoles(headers, values, sel, n - 1);
      ApplyCellReads(ApplyCells(headers, values, sel, n - 1), headers[n - 1], values[n - 1], sel);
    }
  }

  /** One cell sets `tokenId` or `name` when it fills that role, and leaves the
      other unchanged. */
  lemma ApplyCellReads(st: RowState, header: string, value: string, sel: CsvColumnSelection)
    ensures Get(ApplyCell(st, header, value, sel).item, "tokenId") ==
      if value != "" && Some(header) == sel.tokenIdColumn then Some(Str(value)) else Get(st.item, "tokenId")
    ensures Get(ApplyCell(st, header, value, sel).item, "name") ==
      if value != "" && Some(header) != sel.tokenIdColumn && Some(header) == sel.nameColumn
      then Some(Str(value)) else Get(st.item, "name")
  {
    PropertyNamesDiffer();
    if value != "" && Some(header) == sel.tokenIdColumn {
      PutReads(st.item, "tokenId", Str(value));
    } else if value != "" && Some(header) == sel.nameColumn {
      PutReads(st.item, "name", Str(value));
    }
  }


  /** The three properties a CSV record can get are distinct. */
  lemma PropertyNamesDiffer()
    ensures "tokenId" != "name" && "tokenId" != "attributes" && "name" != "attributes"
  {
    assert "tokenId"[0] != "name"[0] && "tokenId"[0] != "attributes"[0] && "name"[0] != "attributes"[0];
  }

  /** The name a record ends up with: the last non-empty name cell, and
      otherwise `Token #` followed by the last non-empty token-id cell, or by
      `lineIndex - 1` when there is none. */
  function ExpectedName(headers: seq<string>, values: seq<string>, sel: CsvColumnSelection, lineIndex: int): string {
    var n := Min(|headers|, |values|);
    match LastRoleCell(headers, values, sel, n, NameRole)
    case Some(j) => values[j]
    case None =>
      "Token #" + match LastRoleCell(headers, values, sel, n, TokenIdRole) {
        case Some(j) => values[j]
        case None => IntToString(lineIndex - 1)
      }
  }

  /** Every record ends up with its trait entries under "attributes" and with
      its name cell or the `Token #` default as its name. */
  lemma RowItemShape(headers: seq<string>, values: seq<string>, sel: CsvColumnSelection, lineIndex: int)
    ensures Get(RowItem(headers, values, sel, lineIndex), "attributes")
      == Some(Arr(ApplyCells(headers, values, sel, Min(|headers|, |values|)).attributes))
    ensures Get(RowItem(headers, values, sel, lineIndex), "name") == Some(Str(ExpectedName(headers, values, sel, lineIndex)))
    ensures Truthy(Get(RowItem(headers, values, sel, lineIndex), "name").value)
  {
    var n := Min(|headers|, |values|);
    var st := ApplyCells(headers, values, sel, n);
    ApplyCellsRoles(headers, values, sel, n);
    LastRoleCellSpec(headers, values, sel, n, NameRole);
    LastRoleCellSpec(headers, values, sel, n, TokenIdRole);
    FinishRowShape(st, lineIndex);
  }

  /** Attaching the attributes keeps a truthy name; a missing or falsy one
      becomes `Token #` followed by a truthy `tokenId`, or by `lineIndex - 1`. */
  lemma FinishRowShape(st: RowState, lineIndex: int)
    ensures Get(FinishRow(st, lineIndex), "attributes") == Some(Arr(st.attributes))
    ensures Get(st.item, "name").Some? && Truthy(Get(st.item, "name").value) ==>
      Get(FinishRow(st, lineIndex), "name") == Get(st.item, "name")
    ensures !(Get(st.item, "name").Some? && Truthy(Get(st.item, "name").value)) ==>
      Get(FinishRow(st, lineIndex), "name") == Some(Str("Token #" +
        if Get(st.item, "tokenId").Some? && Truthy(Get(st.item, "tokenId").value)
        then ToJsString(Get(st.item, "tokenId").value)
        else IntToString(lineIndex - 1)))
    ensures Get(FinishRow(st, lineIndex), "name").Some?
    ensures Truthy(Get(FinishRow(st, lineIndex), "name").value)
  {
    var withAttributes := Put(st.item, "attributes", Arr(st.attributes));
    PutReads(st.item, "attributes", Arr(st.attributes));
    PropertyNamesDiffer();
    var name := Get(withAttributes, "name");
    if name.None? || !Truthy(name.value) {
      var d := DefaultName(withAttributes, lineIndex - 1);
      assert d != "" by { assert d[0] == 'T'; }
      PutReads(withAttributes, "name", Str(d));
      assert FinishRow(st, lineIndex) == Put(withAttributes, "name", Str(d));
    } else {
      assert FinishRow(st, lineIndex) == withAttributes;
    }
  }

  /** An entry built from a CSV attribute cell reads back, under both the
      analyzer's and the rarity engine's key rules, as its column and its value. */
  lemma AttributeEntryReadsBack(header: string, value: string)
    requires header != "" && value != "" && Trim(value) == value
    ensures TypeName(AttributeEntry(header, value)) == Some(header)
    ensures ScoringPair(AttributeEntry(header, value)) == Some((header, value))
  {
    TwoFieldEntry(Str(header), Str(value));
  }

  /** Cells are trimmed, so a non-empty attribute cell satisfies the premise above. */
  lemma CellsAreTrimmed(line: string, j: nat)
    requires j < |Cells(line)|
    ensures Trim(Cells(line)[j]) == Cells(line)[j]
  {
    var parts := Split(line, ',');
    var cell := Trim(parts[j]);
    assert Cells(line)[j] == cell;
    TrimIdempotent(parts[j]);
  }

  /** The cells of every line. */
  function CellTable(lines: seq<string>): (t: seq<seq<string>>)
    ensures |t| == |lines|
  {
    if |lines| == 0 then [] else CellTable(lines[..|lines| - 1]) + [Cells(lines[|lines| - 1])]
  }

  lemma {:induction false} CellTableAt(lines: seq<string>, k: nat)
    requires k < |lines|
    ensures CellTable(lines)[k] == Cells(lines[k])
  {
    if k < |lines| - 1 {
      CellTableAt(lines[..|lines| - 1], k);
    }
  }

  /** The indices, below `upto`, of the data rows of `table` (row 0 holds the
      headers) that have a non-empty cell: the rows that become records. */
  function KeptRows(table: seq<seq<string>>, upto: nat): (r: seq<nat>)
    requires 1 <= upto <= |table|
    ensures forall k :: 0 <= k < |r| ==> 1 <= r[k] < upto
  {
    if upto == 1 then []
    else KeptRows(table, upto - 1) + if AllEmpty(table[upto - 1]) then [] else [upto - 1]
  }

  /** A data row becomes a record exactly when one of its cells is non-empty. */
  lemma {:induction false} KeptRowsMembership(table: seq<seq<string>>, upto: nat, i: nat)
    requires 1 <= upto <= |table|
    ensures i in KeptRows(table, upto) <==> 1 <= i < upto && !AllEmpty(table[i])
  {
    if upto > 1 {
      KeptRowsMembership(table, upto - 1, i);
    }
  }

  /** Records keep the order of their lines. */
  lemma {:induction false} KeptRowsIncreasing(table: seq<seq<string>>, upto: nat)
    requires 1 <= upto <= |table|
    ensures forall a, b :: 0 <= a < b < |KeptRows(table, upto)| ==> KeptRows(table, upto)[a] < KeptRows(table, upto)[b]
  {
    if upto > 1 {
      KeptRowsIncreasing(table, upto - 1);
    }
  }

  /** The body of `parseCsvToJson`'s row loop: one record from one line's cells. */
  method ParseRow(headers: seq<string>, values: seq<string>, sel: CsvColumnSelection, lineIndex: int)
    returns (item: Item)
    ensures item == RowItem(headers, values, sel, lineIndex)
  {
    item := [];
    var attributes: seq<Value> := [];
    var j := 0;
    while j < Min(|headers|, |values|)
      invariant 0 <= j <= Min(|headers|, |values|)
      invariant RowState(item, attributes) == ApplyCells(headers, values, sel, j)
    {
      var header, value := headers[j], values[j];
      if value == "" {
        j := j + 1;
        continue;
      }
      if Some(header) == sel.tokenIdColumn {
        item := Put(item, "tokenId", Str(value));
      } else if Some(header) == sel.nameColumn {
        item := Put(item, "name", Str(value));
      } else if header in sel.attributeColumns {
        if value != "" && ToLower(value) != "none" {
          attributes := attributes + [AttributeEntry(header, value)];
        }
      }
      j := j + 1;
    }
    item := Put(item, "attributes", Arr(attributes));
    var name := Get(item, "name");
    if name.None? || !Truthy(name.value) {
      item := Put(item, "name", Str(DefaultName(item, lineIndex - 1)));
    }
  }

  /** `parseCsvToJson`'s row loop over the cells of the lines, row 0 being the
      header row. */
  method BuildRecords(table: seq<seq<string>>, sel: CsvColumnSelection) returns (items: seq<Item>)
    requires |table| >= 1
    ensures |items| == |KeptRows(table, |table|)|
    ensures forall k :: 0 <= k < |items| ==>
      items[k] == RowItem(table[0], table[KeptRows(table, |table|)[k]], sel, KeptRows(table, |table|)[k])
  {
    var headers := table[0];
    items := [];
    var i := 1;
    while i < |table|
      invariant 1 <= i <= |table|
      invariant RecordsUpTo(items, table, sel, i)
    {
      var values := table[i];
      if |values| != 0 && !AllEmpty(values) {
        var item := ParseRow(headers, values, sel, i);
        RecordsKeep(items, table, sel, i, item);
        items := items + [item];
      } else {
        RecordsSkip(items, table, sel, i);
      }
      i := i + 1;
    }
  }

  /** `items` are the records of the kept lines before `upto`. */
  predicate RecordsUpTo(items: seq<Item>, table: seq<seq<string>>, sel: CsvColumnSelection, upto: nat)
    requires 1 <= upto <= |table|
  {
    |items| == |KeptRows(table, upto)|
    && forall k :: 0 <= k < |items| ==>
      items[k] == RowItem(table[0], table[KeptRows(table, upto)[k]], sel, KeptRows(table, upto)[k])
  }

  /** A line with a non-empty cell adds its record. */
  lemma RecordsKeep(items: seq<Item>, table: seq<seq<string>>, sel: CsvColumnSelection, i: nat, item: Item)
    requires 1 <= i < |table| && !AllEmpty(table[i])
    requires RecordsUpTo(items, table, sel, i) && item == RowItem(table[0], table[i], sel, i)
    ensures RecordsUpTo(items + [item], table, sel, i + 1)
  {
    assert KeptRows(table, i + 1) == KeptRows(table, i) + [i];
  }

  /** A line of empty cells adds nothing. */
  lemma RecordsSkip(items: seq<Item>, table: seq<seq<string>>, sel: CsvColumnSelection, i: nat)
    requires 1 <= i < |table| && (|table[i]| == 0 || AllEmpty(table[i]))
    requires RecordsUpTo(items, table, sel, i)
    ensures RecordsUpTo(items, table, sel, i + 1)
  {
    assert KeptRows(table, i + 1) == KeptRows(table, i);
  }

  /** `parseCsvToJson`: fails when fewer than two non-blank lines exist;
      otherwise one record per data line with a non-empty cell, in line order,
      the k-th built from the k-th such line against the header line. */
  method ParseCsvToJson(csvText: string, sel: CsvColumnSelection) returns (r: Result<seq<Item>>)
    ensures r.Failure? <==> |NonBlankLines(csvText)| < 2
    ensures r.Failure? ==> r.error == TooShortMessage
    ensures r.Success? ==>
      var table := CellTable(NonBlankLines(csvText));
      var kept := KeptRows(table, |table|);
      |r.value| == |kept| &&
      forall k :: 0 <= k < |kept| ==> r.value[k] == RowItem(table[0], table[kept[k]], sel, kept[k])
  {
    var lines := NonBlankLines(csvText);
    if |lines| < 2 {
      return Failure(TooShortMessage);
    }
    var items := BuildRecords(CellTable(lines), sel);
    r := Success(items);
  }
}
