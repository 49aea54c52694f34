/**
 * Folding the uploads into the `translations` dict (app.py lines 184-196):
 * each file is matched to a language, read, and stored under its code when
 * its text is non-empty; a later file for the same code overwrites an
 * earlier one.
 */
module Inputs {
  import opened Wrappers
  import opened OrderedMaps
  import opened Languages
  import opened Matcher
  import opened Extraction

  /** One dict assignment `translations[code] = content`, or none. */
  type Write = Option<(string, string)>

  /** What one file writes into the dict, if anything: its code and its text. */
  function Contribution(f: Upload, ex: Extractors): (w: Write)
    ensures w.Some? <==> MatchLanguage(f.name).Some? && ReadFileContent(f, ex).Some? && ReadFileContent(f, ex).value != ""
    ensures w.Some? ==> MatchLanguage(f.name) == Some(w.value.0) && w.value.0 in Codes
    ensures w.Some? ==> w.value.1 == ReadFileContent(f, ex).value
  {
    match MatchLanguage(f.name)
    case None => None
    case Some(code) =>
      match ReadFileContent(f, ex)
      case Some(content) => if content != "" then Some((code, content)) else None
      case None => None
  }

  /** The writes of `files`, in upload order. */
  function Contributions(files: seq<Upload>, ex: Extractors): (ws: seq<Write>)
    ensures |ws| == |files|
    ensures forall i :: 0 <= i < |files| ==> ws[i] == Contribution(files[i], ex)
  {
    seq(|files|, i requires 0 <= i < |files| => Contribution(files[i], ex))
  }

  /** Reading two batches of files one after the other gives both batches' writes. */
  lemma ContributionsConcat(xs: seq<Upload>, ys: seq<Upload>, ex: Extractors)
    ensures Contributions(xs + ys, ex) == Contributions(xs, ex) + Contributions(ys, ex)
  {
    var both := xs + ys;
    forall i | 0 <= i < |both|
      ensures Contributions(both, ex)[i] == (Contributions(xs, ex) + Contributions(ys, ex))[i]
    {
      if i < |xs| {
        assert both[i] == xs[i];
      } else {
        assert both[i] == ys[i - |xs|];
      }
    }
  }

  /** One iteration of the upload loop: perform the file's write, if any. */
  function Step(m: OrderedMap<string, string>, w: Write): (m2: OrderedMap<string, string>)
  {
    match w
    case None => m
    case Some(p) => Put(m, p.0, p.1)
  }

  /** How one write changes lookups: only its own code is affected. */
  lemma StepLookup(m: OrderedMap<string, string>, w: Write, code: string)
    ensures Lookup(Step(m, w), code) ==
      if w.Some? && w.value.0 == code then Some(w.value.1) else Lookup(m, code)
  {
    if w.Some? {
      PutLookup(m, w.value.0, w.value.1, code);
    }
  }

  /** The dict after performing `ws` in order, starting from `{}`. */
  function Perform(ws: seq<Write>): (m: OrderedMap<string, string>)
  {
    if |ws| == 0 then [] else Step(Perform(ws[..|ws| - 1]), ws[|ws| - 1])
  }

  /** Write `i` stores `content` under `code`. */
  predicate Writes(ws: seq<Write>, i: int, code: string, content: string)
  {
    0 <= i < |ws| && ws[i] == Some((code, content))
  }

  /** Write `j` stores something under `code`. */
  predicate WritesCode(ws: seq<Write>, j: int, code: string)
  {
    0 <= j < |ws| && ws[j].Some? && ws[j].value.0 == code
  }

  /** No write after position `i` touches `code`. */
  predicate NoLaterWrite(ws: seq<Write>, i: int, code: string)
  {
    forall j :: i < j < |ws| ==> !WritesCode(ws, j, code)
  }

  /** Every stored pair was written by some write. */
  lemma {:induction false} PerformPairsWritten(ws: seq<Write>)
    ensures DistinctKeys(Perform(ws))
    ensures forall p :: p in Perform(ws) ==> Some(p) in ws
  {
    if |ws| > 0 {
      var init := ws[..|ws| - 1];
      PerformPairsWritten(init);
      assert forall w :: w in init ==> w in ws;
      if ws[|ws| - 1].Some? {
        var p := ws[|ws| - 1].value;
        PutKeepsKeysDistinct(Perform(init), p.0, p.1);
        PutPairs(Perform(init), p.0, p.1);
      }
    }
  }

  /** Extending the writes by one that leaves `code` alone keeps every write's standing. */
  lemma ExtendWithoutCode(ws: seq<Write>, i: int, code: string, content: string)
    requires |ws| > 0 && !WritesCode(ws, |ws| - 1, code)
    ensures Writes(ws[..|ws| - 1], i, code, content) <==> Writes(ws, i, code, content)
    ensures 0 <= i < |ws| - 1 ==> (NoLaterWrite(ws[..|ws| - 1], i, code) <==> NoLaterWrite(ws, i, code))
  {
    var init := ws[..|ws| - 1];
    if 0 <= i < |ws| - 1 {
      if NoLaterWrite(init, i, code) {
        forall j | i < j < |ws|
          ensures !WritesCode(ws, j, code)
        {
          if j < |init| {
            assert !WritesCode(init, j, code);
          }
        }
      }
      if NoLaterWrite(ws, i, code) {
        forall j | i < j < |init|
          ensures !WritesCode(init, j, code)
        {
          assert !WritesCode(ws, j, code);
        }
      }
    }
  }

  /**
   * Last write wins: the dict holds `content` under `code` exactly when some
   * write stored it there and no later write touched that code again.
   */
  lemma {:induction false} LastWriteWins(ws: seq<Write>, code: string, content: string)
    ensures Lookup(Perform(ws), code) == Some(content) <==>
      exists i :: Writes(ws, i, code, content) && NoLaterWrite(ws, i, code)
  {
    if |ws| > 0 {
      var n := |ws| - 1;
      var init := ws[..n];
      LastWriteWins(init, code, content);
      StepLookup(Perform(init), ws[n], code);
      var lhs := Lookup(Perform(ws), code) == Some(content);
      if WritesCode(ws, n, code) {
        if lhs {
          assert Writes(ws, n, code, content) && NoLaterWrite(ws, n, code);
        }
        if exists i :: Writes(ws, i, code, content) && NoLaterWrite(ws, i, code) {
          var i :| Writes(ws, i, code, content) && NoLaterWrite(ws, i, code);
          assert i == n;
        }
      } else {
        if lhs {
          var i :| Writes(init, i, code, content) && NoLaterWrite(init, i, code);
          ExtendWithoutCode(ws, i, code, content);
        }
        if exists i :: Writes(ws, i, code, content) && NoLaterWrite(ws, i, code) {
          var i :| Writes(ws, i, code, content) && NoLaterWrite(ws, i, code);
          ExtendWithoutCode(ws, i, code, content);
        }
      }
    }
  }

  /** A code is absent from the dict exactly when no write touched it. */
  lemma {:induction false} AbsentIffNeverWritten(ws: seq<Write>, code: string)
    ensures Lookup(Perform(ws), code).None? <==> forall j :: 0 <= j < |ws| ==> !WritesCode(ws, j, code)
  {
    if |ws| > 0 {
      var n := |ws| - 1;
      var init := ws[..n];
      AbsentIffNeverWritten(init, code);
      StepLookup(Perform(init), ws[n], code);
      if forall j :: 0 <= j < |init| ==> !WritesCode(init, j, code) {
        if !WritesCode(ws, n, code) {
          forall j | 0 <= j < |ws|
            ensures !WritesCode(ws, j, code)
          {
            if j < n {
              assert !WritesCode(init, j, code);
            }
          }
        }
      } else {
        var j :| 0 <= j < |init| && WritesCode(init, j, code);
        assert WritesCode(ws, j, code);
      }
    }
  }

  /** A missing write anywhere in the sequence changes nothing. */
  lemma {:induction false} NoWriteIsNeutral(before: seq<Write>, after: seq<Write>)
    ensures Perform(before + [None] + after) == Perform(before + after)
  {
    var a := before + [None] + after;
    var b := before + after;
    if |after| == 0 {
      assert a[..|a| - 1] == before;
      assert Perform(a) == Step(Perform(before), None);
      assert b == before;
    } else {
      var n := |after| - 1;
      NoWriteIsNeutral(before, after[..n]);
      assert a[..|a| - 1] == before + [None] + after[..n];
      assert b[..|b| - 1] == before + after[..n];
      assert Perform(a) == Step(Perform(before + [None] + after[..n]), after[n]);
      assert Perform(b) == Step(Perform(before + after[..n]), after[n]);
    }
  }

  /** The codes written, in order, repeats included. */
  function WrittenCodes(ws: seq<Write>): (cs: seq<string>)
  {
    if |ws| == 0 then []
    else
      var prev := WrittenCodes(ws[..|ws| - 1]);
      match ws[|ws| - 1]
      case Some(p) => prev + [p.0]
      case None => prev
  }

  /** `s` with every repeat of an earlier element removed. */
  function Dedup(s: seq<string>): (r: seq<string>)
    ensures forall x :: x in r <==> x in s
  {
    if |s| == 0 then []
    else
      var prev := Dedup(s[..|s| - 1]);
      assert s == s[..|s| - 1] + [s[|s| - 1]];
      if s[|s| - 1] in prev then prev else prev + [s[|s| - 1]]
  }

  /**
   * The dict's key order is the order in which codes were first written:
   * overwriting a code later keeps its original position.
   */
  lemma {:induction false} KeyOrderIsFirstWrite(ws: seq<Write>)
    ensures Keys(Perform(ws)) == Dedup(WrittenCodes(ws))
  {
    if |ws| > 0 {
      var n := |ws| - 1;
      KeyOrderIsFirstWrite(ws[..n]);
      var prevCodes := WrittenCodes(ws[..n]);
      match ws[n]
      case None =>
      case Some(p) =>
        var s := prevCodes + [p.0];
        assert s[..|s| - 1] == prevCodes;
    }
  }

  /** The `translations` dict after reading `files` in upload order. */
  function AssembleInputs(files: seq<Upload>, ex: Extractors): (m: OrderedMap<string, string>)
    ensures DistinctKeys(m)
    ensures forall i :: 0 <= i < |m| ==> m[i].0 in Codes && m[i].1 != ""
  {
    var ws := Contributions(files, ex);
    var m := Perform(ws);
    PerformPairsWritten(ws);
    assert forall i :: 0 <= i < |m| ==> m[i] in m;
    m
  }

  /** Upload `i` is matched to `code` and reads as the non-empty `text`. */
  predicate UploadGives(files: seq<Upload>, ex: Extractors, i: int, code: string, text: string)
  {
    0 <= i < |files| && MatchLanguage(files[i].name) == Some(code)
    && ReadFileContent(files[i], ex) == Some(text) && text != ""
  }

  /** Upload `j` is matched to `code` and reads as some non-empty text. */
  predicate UploadGivesCode(files: seq<Upload>, ex: Extractors, j: int, code: string)
  {
    0 <= j < |files| && MatchLanguage(files[j].name) == Some(code)
    && ReadFileContent(files[j], ex).Some? && ReadFileContent(files[j], ex).value != ""
  }

  /**
   * The translations dict holds `text` under `code` exactly when some upload
   * is matched to `code` and reads as the non-empty `text`, and no later
   * upload is matched to `code` and reads as non-empty text.
   */
  lemma InputIsLastReadableUpload(files: seq<Upload>, ex: Extractors, code: string, text: string)
    ensures Lookup(AssembleInputs(files, ex), code) == Some(text) <==>
      exists i :: UploadGives(files, ex, i, code, text)
        && forall j :: i < j < |files| ==> !UploadGivesCode(files, ex, j, code)
  {
    var ws := Contributions(files, ex);
    LastWriteWins(ws, code, text);
    forall i ensures Writes(ws, i, code, text) <==> UploadGives(files, ex, i, code, text) {}
    forall j ensures WritesCode(ws, j, code) <==> UploadGivesCode(files, ex, j, code) {}
  }

  /**
   * Two uploads for the same code, at any positions: the later one's text is
   * what is kept, unless a still later upload writes the code again.
   */
  lemma LaterDuplicateOverwrites(files: seq<Upload>, ex: Extractors, i: int, j: int, code: string, v1: string, v2: string)
    requires 0 <= i < j < |files|
    requires UploadGives(files, ex, i, code, v1)
    requires UploadGives(files, ex, j, code, v2)
    requires forall k :: j < k < |files| ==> !UploadGivesCode(files, ex, k, code)
    ensures Lookup(AssembleInputs(files, ex), code) == Some(v2)
  {
    InputIsLastReadableUpload(files, ex, code, v2);
  }

  /**
   * A file that matches no language, cannot be read, or reads as empty text
   * leaves the dict exactly as if it had not been uploaded.
   */
  lemma SilentFileIgnored(before: seq<Upload>, f: Upload, after: seq<Upload>, ex: Extractors)
    requires Contribution(f, ex).None?
    ensures AssembleInputs(before + [f] + after, ex) == AssembleInputs(before + after, ex)
  {
    var b := Contributions(before, ex);
    var a := Contributions(after, ex);
    assert Contributions([f], ex) == [None];
    ContributionsConcat(before, [f], ex);
    ContributionsConcat(before + [f], after, ex);
    ContributionsConcat(before, after, ex);
    NoWriteIsNeutral(b, a);
  }

  /** A code has input only if some uploaded file name was matched to it. */
  lemma InputsComeFromMatchedUploads(files: seq<Upload>, ex: Extractors, code: string)
    requires Lookup(AssembleInputs(files, ex), code).Some?
    ensures exists k :: 0 <= k < |files| && MatchLanguage(files[k].name) == Some(code)
  {
    var ws := Contributions(files, ex);
    AbsentIffNeverWritten(ws, code);
    var j :| 0 <= j < |ws| && WritesCode(ws, j, code);
    assert MatchLanguage(files[j].name) == Some(code);
  }
}
