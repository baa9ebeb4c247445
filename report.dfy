/** The planning report handed to the PDF generator: six columns per catalog row. */
module Report {
  import opened Wrappers
  import opened Text
  import opened Numbers
  import opened Inventory
  import opened Requirement

  const Headers: seq<string> := ["Barang", "Size", "Stok Sekarang", "Target (Formula x2)", "Status", "Saran Order"]

  const Title: string := "LAPORAN PERENCANAAN KEBUTUHAN BARANG (SAFETY FACTOR x2)"

  /** The closing part of the subtitle: the formula the targets follow. */
  const Basis: string := " | Target: (Harian x Hari) x 2"

  /** The payload of `generatePdfReport`. */
  datatype PdfReport = PdfReport(
    title: string,
    subtitle: string,
    userName: string,
    headers: seq<string>,
    data: seq<seq<string>>,
    fileName: string)

  /** One row of `handleExportPdf`: name, size, stock, target, status label, suggested order. */
  function ExportRow(item: Item, p: Period): (row: seq<string>)
    ensures |row| == |Headers|
    ensures row[0] == item.name && row[1] == item.size
    ensures row[4] == Label(Badge(item.expectedQty, Target(item, p)))
  {
    var target := Target(item, p);
    var gap := Gap(target, item.expectedQty);
    var req := Target(item, p);
    Row(item.name, item.size, item.expectedQty, target, PdfStatus(item.expectedQty, req), gap)
  }

  function Row(name: string, size: string, stock: int, target: int, status: string, gap: int): seq<string>
  {
    [name, size, IntToString(stock), IntToString(target), status, IntToString(gap)]
  }

  lemma RowReadsBack(name: string, size: string, stock: int, target: int, status: string, gap: int)
    ensures var row := Row(name, size, stock, target, status, gap);
      && |row| == |Headers|
      && row[0] == name && row[1] == size && row[4] == status
      && ParseInt(row[2]) == Some(stock)
      && ParseInt(row[3]) == Some(target)
      && ParseInt(row[5]) == Some(gap)
  {
    var row := Row(name, size, stock, target, status, gap);
    assert ParseInt(row[2]) == Some(stock) by {
      ParseIntRoundTrip(stock);
    }
    assert ParseInt(row[3]) == Some(target) by {
      ParseIntRoundTrip(target);
    }
    assert ParseInt(row[5]) == Some(gap) by {
      ParseIntRoundTrip(gap);
    }
  }

  /**
   * Every row has the six columns of the header in order, and its three numbers are
   * written so that `parseInt` reads back exactly the stock, the target and the gap.
   */
  lemma ExportRowContents(item: Item, p: Period)
    ensures var row := ExportRow(item, p);
      && |row| == |Headers|
      && row[0] == item.name && row[1] == item.size
      && ParseInt(row[2]) == Some(item.expectedQty)
      && ParseInt(row[3]) == Some(Target(item, p))
      && row[4] == Label(Badge(item.expectedQty, Target(item, p)))
      && ParseInt(row[5]) == Some(Gap(Target(item, p), item.expectedQty))
  {
    var target := Target(item, p);
    var gap := Gap(target, item.expectedQty);
    RowReadsBack(item.name, item.size, item.expectedQty, target, PdfStatus(item.expectedQty, target), gap);
  }

  /** `handleExportPdf`: the report over the filtered catalog. */
  function ExportReport(filtered: seq<Item>, wh: Warehouse, p: Period, userName: string): (r: PdfReport)
    ensures r.headers == Headers && r.title == Title && r.userName == userName
    ensures r.subtitle == "Lokasi: " + wh.Name() + " | Periode Perhitungan: " + p.Code() + Basis
    ensures |r.data| == |filtered|
    ensures forall j :: 0 <= j < |filtered| ==> r.data[j] == ExportRow(filtered[j], p)
    ensures forall i :: 0 <= i < |r.fileName| ==> !IsWhitespace(r.fileName[i])
  {
    var data := seq(|filtered|, j requires 0 <= j < |filtered| => ExportRow(filtered[j], p));
    PdfReport(
      Title,
      "Lokasi: " + wh.Name() + " | Periode Perhitungan: " + p.Code() + Basis,
      userName,
      Headers,
      data,
      "Kebutuhan_Stok_" + ReplaceWhitespace(wh.Name(), '_'))
  }
}
