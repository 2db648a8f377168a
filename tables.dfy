/**
 * Helpers of the table QR screen (src/screens/TableManagement.tsx): turning a
 * backend table into a card, the create-table body, the delete confirmation, the
 * download file name and the per-tab card content. `window.location.origin` is a parameter.
 */
module TableManagement {
  import opened Wrappers
  import opened Text

  datatype ApiTable = ApiTable(id: string, tableNumber: string, qrValue: Option<string>)
  datatype TableItem = TableItem(id: string, tableNo: string, url: string)

  datatype Tab = TableNumberTab | QrCodeTab | QrDataTab | ActionsTab

  /** What a table card shows under its header. */
  datatype CardContent = UrlText(text: string) | QrImage(value: string) | NoContent

  const MenuQuery: string := "/menu?tableId="
  const FilePrefix: string := "table-"
  const FileSuffix: string := "-qr.png"

  /** The customer menu link for a table. */
  function DefaultUrl(origin: string, tableId: string): string {
    origin + MenuQuery + tableId
  }

  /** The table id carried by a customer menu link of this origin, if it is one. */
  function TableIdOfUrl(origin: string, url: string): Option<string> {
    var prefix := origin + MenuQuery;
    if |prefix| <= |url| && url[..|prefix|] == prefix then Some(url[|prefix|..]) else None
  }

  /**
   * `mapApiToUI`: id and number are copied; the link is the stored QR value when it is
   * present and non-empty, otherwise the menu link of the table's own id.
   */
  function MapApiToUI(t: ApiTable, origin: string): (item: TableItem)
    ensures item.id == t.id && item.tableNo == t.tableNumber
    ensures t.qrValue.Some? && t.qrValue.value != "" ==> item.url == t.qrValue.value
    ensures t.qrValue.None? || t.qrValue.value == "" ==> TableIdOfUrl(origin, item.url) == Some(t.id)
  {
    var url := if t.qrValue.Some? && t.qrValue.value != "" then t.qrValue.value else DefaultUrl(origin, t.id);
    assert t.qrValue.None? || t.qrValue.value == "" ==> url[..|origin + MenuQuery|] == origin + MenuQuery;
    TableItem(t.id, t.tableNumber, url)
  }

  /** The create-table body: the trimmed number when it is not blank, otherwise `{}` (`None`). */
  function CreatePayload(typed: string): (body: Option<string>)
    ensures body.Some? <==> !AllSpace(typed)
    ensures body.Some? ==> body.value == Trim(typed)
  {
    var n := Trim(typed);
    if n != [] then Some(n) else None
  }

  /** A table number that was sent is sent unchanged when typed again. */
  lemma CreatePayloadStable(typed: string)
    requires CreatePayload(typed).Some?
    ensures CreatePayload(CreatePayload(typed).value) == CreatePayload(typed)
  {
    TrimIdempotent(typed);
  }

  /** `confirmDelete`: the id to delete, or nothing when no table is pending. */
  function ConfirmDelete(pending: Option<TableItem>): (target: Option<string>)
    ensures target.None? <==> pending.None?
    ensures target.Some? ==> target.value == pending.value.id
  {
    match pending
    case None => None
    case Some(t) => Some(t.id)
  }

  /** The name of the downloaded QR image. */
  function DownloadFileName(t: TableItem): (name: string)
    ensures |name| == |FilePrefix| + |t.tableNo| + |FileSuffix|
    ensures name[..|FilePrefix|] == FilePrefix && name[|name| - |FileSuffix|..] == FileSuffix
  {
    var name := FilePrefix + t.tableNo + FileSuffix;
    assert name[..|FilePrefix|] == FilePrefix;
    name
  }

  /** The table number read back from a downloaded file's name. */
  function TableNoOfFileName(name: string): Option<string> {
    if |name| >= |FilePrefix| + |FileSuffix| && name[..|FilePrefix|] == FilePrefix
       && name[|name| - |FileSuffix|..] == FileSuffix
    then Some(name[|FilePrefix|..|name| - |FileSuffix|])
    else None
  }

  /** Every download name carries its table number. */
  lemma DownloadFileNameRoundTrip(t: TableItem)
    ensures TableNoOfFileName(DownloadFileName(t)) == Some(t.tableNo)
  {
    var name := DownloadFileName(t);
    assert name[..|FilePrefix|] == FilePrefix;
    assert name[|name| - |FileSuffix|..] == FileSuffix;
    assert name[|FilePrefix|..|name| - |FileSuffix|] == t.tableNo;
  }

  /** `showQR`: the three tabs other than "QR Data". */
  predicate ShowQR(tab: Tab) {
    tab == QrCodeTab || tab == TableNumberTab || tab == ActionsTab
  }

  /** The content branch of `TableCard`. */
  function CardContentFor(tab: Tab, item: TableItem): (c: CardContent)
    ensures c.UrlText? <==> tab == QrDataTab
    ensures c.QrImage? <==> tab != QrDataTab
    ensures c.UrlText? ==> c.text == item.url
    ensures c.QrImage? ==> c.value == item.url
  {
    if tab == QrDataTab then UrlText(item.url)
    else if ShowQR(tab) then QrImage(item.url)
    else NoContent
  }
}
