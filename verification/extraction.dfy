/**
 * Reading an uploaded translation file (`read_file_content`, app.py lines
 * 40-55). UTF-8 decoding and `.docx` paragraph parsing belong to Python and
 * python-docx; here they are abstract, possibly failing functions, and only
 * the dispatch on the file suffix and the paragraph joining are modelled.
 */
module Extraction {
  import opened Wrappers

  /** An uploaded file: its name and raw bytes. */
  datatype Upload = Upload(name: string, data: seq<bv8>)

  /**
   * The two foreign text extractors: `bytes.decode('utf-8')` and the list of
   * paragraph texts of a Word document. `None` stands for a raised exception.
   */
  datatype Extractors = Extractors(
    decodeUtf8: seq<bv8> -> Option<string>,
    docxParagraphs: seq<bv8> -> Option<seq<string>>)

  datatype Format = PlainText | WordDocument

  /** Python's `s.endswith(suffix)`. */
  predicate EndsWith(s: string, suffix: string)
  {
    |suffix| <= |s| && s[|s| - |suffix|..] == suffix
  }

  /** The suffix dispatch: `.txt` and every unrecognised suffix decode as text. */
  function FormatOf(name: string): (f: Format)
    ensures f == WordDocument <==> EndsWith(name, ".docx")
  {
    if EndsWith(name, ".txt") then
      assert name[|name| - 1] == ".txt"[3] != ".docx"[4];
      PlainText
    else if EndsWith(name, ".docx") then WordDocument
    else PlainText
  }

  /** `'\n'.join(lines)`. */
  function JoinLines(lines: seq<string>): (s: string)
  {
    if |lines| == 0 then ""
    else if |lines| == 1 then lines[0]
    else JoinLines(lines[..|lines| - 1]) + "\n" + lines[|lines| - 1]
  }

  /**
   * A joined document is empty exactly when it has no paragraph, or a single
   * empty one; two empty paragraphs already give the non-empty text "\n".
   */
  lemma {:induction false} JoinLinesEmpty(lines: seq<string>)
    ensures JoinLines(lines) == "" <==> |lines| == 0 || (|lines| == 1 && lines[0] == "")
  {
    if |lines| > 1 {
      assert |JoinLines(lines)| >= 1;
    }
  }

  /**
   * The text of an uploaded file, or `None` when reading it raised. Only a
   * `.docx` name goes through the document parser; every other name,
   * `.txt` or not, is decoded as UTF-8.
   */
  function ReadFileContent(f: Upload, ex: Extractors): (r: Option<string>)
    ensures EndsWith(f.name, ".docx") ==>
      r == (match ex.docxParagraphs(f.data)
            case Some(lines) => Some(JoinLines(lines))
            case None => None)
    ensures !EndsWith(f.name, ".docx") ==> r == ex.decodeUtf8(f.data)
  {
    match FormatOf(f.name)
    case PlainText => ex.decodeUtf8(f.data)
    case WordDocument =>
      match ex.docxParagraphs(f.data)
      case Some(lines) => Some(JoinLines(lines))
      case None => None
  }
}
