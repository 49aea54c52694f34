/**
 * The outputs of a batch: the ZIP archive's entries (`create_zip_file`,
 * app.py lines 105-115) and the individual download buttons (app.py lines
 * 226-237). Only names, contents and order are modelled, not ZIP bytes.
 */
module Archive {
  import opened Wrappers
  import opened OrderedMaps
  import opened Languages

  const EntryPrefix: string := "marvel_snap_blog_"
  const DownloadPrefix: string := "blog_"
  const HtmlSuffix: string := ".html"

  /** One file written into the archive. */
  datatype Entry = Entry(name: string, content: string)

  /** The name of a code's file inside the archive. */
  function EntryName(code: string): (name: string)
  {
    EntryPrefix + code + HtmlSuffix
  }

  /** The file name of a code's individual download. */
  function DownloadName(code: string): (name: string)
  {
    DownloadPrefix + code + HtmlSuffix
  }

  /** Recovers the code from a name `prefix + code + ".html"`, if it has that shape. */
  function CodeBetween(prefix: string, name: string): (r: Option<string>)
    ensures r.Some? ==> name == prefix + r.value + HtmlSuffix
  {
    if |prefix| + |HtmlSuffix| <= |name|
       && name[..|prefix|] == prefix
       && name[|name| - |HtmlSuffix|..] == HtmlSuffix
    then
      var code := name[|prefix|..|name| - |HtmlSuffix|];
      assert name == name[..|prefix|] + code + name[|name| - |HtmlSuffix|..];
      Some(code)
    else None
  }

  /** Reading a code back out of the name it was written into gives that code. */
  lemma CodeBetweenRoundTrip(prefix: string, code: string)
    ensures CodeBetween(prefix, prefix + code + HtmlSuffix) == Some(code)
  {
    var name := prefix + code + HtmlSuffix;
    assert name[..|prefix|] == prefix;
    assert name[|name| - |HtmlSuffix|..] == HtmlSuffix;
    assert name[|prefix|..|name| - |HtmlSuffix|] == code;
  }

  /** The code an archive entry name was made from, if it is one. */
  function EntryCode(name: string): (r: Option<string>)
    ensures r.Some? ==> EntryName(r.value) == name
  {
    CodeBetween(EntryPrefix, name)
  }

  /** Entry names are decodable, so two codes never share an entry name. */
  lemma EntryNameRoundTrip(code: string)
    ensures EntryCode(EntryName(code)) == Some(code)
  {
    CodeBetweenRoundTrip(EntryPrefix, code);
  }

  /** Different codes get different entry names. */
  lemma EntryNameInjective(a: string, b: string)
    ensures EntryName(a) == EntryName(b) <==> a == b
  {
    EntryNameRoundTrip(a);
    EntryNameRoundTrip(b);
  }

  /** The archive entry for Spanish. */
  lemma SpanishEntryName()
    ensures EntryName("spa") == "marvel_snap_blog_spa.html"
  {
  }

  /** The code an individual download's file name was made from, if it is one. */
  function DownloadCode(name: string): (r: Option<string>)
    ensures r.Some? ==> DownloadName(r.value) == name
  {
    CodeBetween(DownloadPrefix, name)
  }

  /** Download names are decodable, so two codes never share a download name. */
  lemma DownloadNameRoundTrip(code: string)
    ensures DownloadCode(DownloadName(code)) == Some(code)
  {
    CodeBetweenRoundTrip(DownloadPrefix, code);
  }

  /** `create_zip_file`: one entry per result, in result order, content unchanged. */
  function ZipEntries(results: OrderedMap<string, string>): (es: seq<Entry>)
    ensures |es| == |results|
    ensures forall i :: 0 <= i < |results| ==> es[i] == Entry(EntryName(results[i].0), results[i].1)
  {
    seq(|results|, i requires 0 <= i < |results| => Entry(EntryName(results[i].0), results[i].1))
  }

  /** Reads the results back out of an archive's entries; `None` for a foreign entry name. */
  function Unzip(es: seq<Entry>): (r: Option<OrderedMap<string, string>>)
    ensures r.Some? ==> |r.value| == |es|
  {
    if |es| == 0 then Some([])
    else
      match (Unzip(es[..|es| - 1]), EntryCode(es[|es| - 1].name))
      case (Some(m), Some(code)) => Some(m + [(code, es[|es| - 1].content)])
      case _ => None
  }

  /** The archive holds exactly the results: unzipping it gives them back, in order. */
  lemma {:induction false} UnzipZipEntries(results: OrderedMap<string, string>)
    ensures Unzip(ZipEntries(results)) == Some(results)
  {
    if |results| > 0 {
      var pre, last := results[..|results| - 1], results[|results| - 1];
      assert ZipEntries(results)[..|results| - 1] == ZipEntries(pre);
      UnzipZipEntries(pre);
      EntryNameRoundTrip(last.0);
      assert pre + [last] == results;
    }
  }

  /** The archive's entry names are distinct exactly when the result codes are. */
  lemma ZipEntryNamesDistinct(results: OrderedMap<string, string>)
    ensures DistinctKeys(results) <==>
      forall i, j :: 0 <= i < j < |results| ==> ZipEntries(results)[i].name != ZipEntries(results)[j].name
  {
    forall i, j | 0 <= i < j < |results|
      ensures ZipEntries(results)[i].name == ZipEntries(results)[j].name <==> results[i].0 == results[j].0
    {
      EntryNameInjective(results[i].0, results[j].0);
    }
  }

  /** One individual download button. */
  datatype Download = Download(caption: string, data: string, fileName: string, key: string, column: nat)

  /**
   * The individual download buttons: one per result, in result order, laid
   * out round-robin over three columns. `LANGUAGES[lang_code]` would raise
   * for a code outside the registry; every result code is a registry code.
   */
  function Downloads(results: OrderedMap<string, string>): (ds: seq<Download>)
    requires forall i :: 0 <= i < |results| ==> results[i].0 in Codes
    ensures |ds| == |results|
    ensures forall i :: 0 <= i < |results| ==>
      && ds[i].data == results[i].1
      && DownloadCode(ds[i].fileName) == Some(results[i].0)
      && ds[i].key == "download_" + results[i].0
      && ds[i].column == i % 3 && ds[i].column < 3
      && (forall j :: 0 <= j < |Codes| && Codes[j] == results[i].0 ==> ds[i].caption == "\U{1F4C4} " + Names[j])
  {
    forall i | 0 <= i < |results|
      ensures DownloadCode(DownloadName(results[i].0)) == Some(results[i].0)
    {
      DownloadNameRoundTrip(results[i].0);
    }
    seq(|results|, i requires 0 <= i < |results| =>
      Download("\U{1F4C4} " + Label(results[i].0), results[i].1, DownloadName(results[i].0), "download_" + results[i].0, i % 3))
  }
}
