/** The results table: which icon, colour and code cell each record gets, and when
    nothing is rendered at all. */
module ResultsTable {
  import opened Wrappers
  import opened Links
  import CheckLinks

  /** `status` is truthy in JavaScript: set and not 0. */
  predicate Truthy(status: Option<int>)
    // the falsy values a status can take are unset and 0
    ensures Truthy(status) <==> status != None && status != Some(0)
  {
    status.Some? && status.value != 0
  }

  /** The 2xx Successful class (section 15.3 of RFC 9110). */
  predicate IsSuccess(code: int)
  {
    200 <= code < 300
  }

  /** The three states the table distinguishes. */
  datatype Category = Pending | Valid | Broken

  /** The state a status is shown in: falsy (unset or 0) is pending, 2xx valid, anything
      else broken. */
  function Classify(status: Option<int>): (c: Category)
    ensures c == Pending <==> !Truthy(status)
    ensures c == Valid <==> Truthy(status) && IsSuccess(status.value)
    ensures c == Broken <==> Truthy(status) && !IsSuccess(status.value)
  {
    if !Truthy(status) then Pending
    else if IsSuccess(status.value) then Valid
    else Broken
  }

  const GrayColor := "text-gray-400"
  const SuccessColor := "text-success"
  const ErrorColor := "text-error"

  const PendingIcon := "\U{23F3}"  // hourglass
  const ValidIcon := "\U{2705}"    // check mark
  const BrokenIcon := "\U{274C}"   // cross mark

  /** The icon and colour that stand for each state. */
  function IconOf(c: Category): string
  {
    match c
    case Pending => PendingIcon
    case Valid => ValidIcon
    case Broken => BrokenIcon
  }

  function ColorOf(c: Category): string
  {
    match c
    case Pending => GrayColor
    case Valid => SuccessColor
    case Broken => ErrorColor
  }

  /** `getStatusColor(status)`. */
  function StatusColor(status: Option<int>): (color: string)
    ensures color == GrayColor <==> Classify(status) == Pending
    ensures color == SuccessColor <==> Classify(status) == Valid
    ensures color == ErrorColor <==> Classify(status) == Broken
  {
    if !Truthy(status) then GrayColor
    else if status.value >= 200 && status.value < 300 then SuccessColor
    else ErrorColor
  }

  /** `getStatusIcon(status)`. */
  function StatusIcon(status: Option<int>): (icon: string)
    ensures icon == PendingIcon <==> Classify(status) == Pending
    ensures icon == ValidIcon <==> Classify(status) == Valid
    ensures icon == BrokenIcon <==> Classify(status) == Broken
  {
    if !Truthy(status) then PendingIcon
    else if status.value >= 200 && status.value < 300 then ValidIcon
    else BrokenIcon
  }

  /** Icon and colour always show the same state. */
  lemma IconMatchesColor(status: Option<int>)
    ensures StatusIcon(status) == PendingIcon <==> StatusColor(status) == GrayColor
    ensures StatusIcon(status) == ValidIcon <==> StatusColor(status) == SuccessColor
    ensures StatusIcon(status) == BrokenIcon <==> StatusColor(status) == ErrorColor
  {
  }

  /** The "Code" column: `{link.status || '...'}`. */
  datatype CodeCell = Code(code: int) | Ellipsis

  function ShowCode(status: Option<int>): (cell: CodeCell)
    ensures cell.Code? <==> Truthy(status)
    ensures cell.Code? ==> status == Some(cell.code)
  {
    if Truthy(status) then Code(status.value) else Ellipsis
  }

  /** A status of 0 (the check-links endpoint's "network error or timeout") is shown exactly like an
      unchecked link: hourglass, gray, '...'. */
  lemma NetworkErrorShownPending()
    ensures StatusIcon(Some(CheckLinks.NetworkError)) == StatusIcon(None) == PendingIcon
    ensures StatusColor(Some(CheckLinks.NetworkError)) == StatusColor(None) == GrayColor
    ensures ShowCode(Some(CheckLinks.NetworkError)) == ShowCode(None) == Ellipsis
  {
  }

  /** One table row. */
  datatype Row = Row(icon: string, url: string, page: int, color: string, code: CodeCell)

  /** The rendered table: the "Found N Links" count and the rows. */
  datatype Table = Table(count: int, rows: seq<Row>)

  /** `ResultsTable({ links })`: nothing for a missing or empty list, else one row per
      record, in order. */
  function Render(links: Option<seq<LinkRecord>>): (t: Option<Table>)
    ensures t.None? <==> links.None? || links.value == []
    ensures t.Some? ==>
      && t.value.count == |links.value| && |t.value.rows| == |links.value|
      && forall i :: 0 <= i < |links.value| ==>
           var link := links.value[i];
           var row := t.value.rows[i];
           && row.url == link.url && row.page == link.page
           && row.icon == IconOf(Classify(link.status))
           && row.color == ColorOf(Classify(link.status))
           && (row.code.Code? <==> Truthy(link.status))
           && (row.code.Code? ==> link.status == Some(row.code.code))
  {
    if links.None? || links.value == [] then None
    else
      var ls := links.value;
      Some(Table(|ls|, seq(|ls|, i requires 0 <= i < |ls| =>
        Row(StatusIcon(ls[i].status), ls[i].url, ls[i].page, StatusColor(ls[i].status), ShowCode(ls[i].status)))))
  }
}
