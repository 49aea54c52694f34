/**
 * Assigning an uploaded file to a language: the first registry code, in
 * registry order, that occurs in the file name (app.py lines 161-165 and
 * 187-191 run the same loop), and the "missing languages" report built from it.
 */
module Matcher {
  import opened Wrappers
  import opened Languages
  import opened Strings

  /** Position `i` holds the first of `codes` that occurs in `name`. */
  predicate IsFirstMatch(name: string, codes: seq<string>, i: int)
  {
    && 0 <= i < |codes|
    && Contains(name, codes[i])
    && forall j :: 0 <= j < i ==> !Contains(name, codes[j])
  }

  /** The loop `for code in codes: if code in name: return code`. */
  function FirstMatch(name: string, codes: seq<string>): (r: Option<string>)
    ensures r.None? <==> forall j :: 0 <= j < |codes| ==> !Contains(name, codes[j])
    ensures r.Some? ==> exists i :: IsFirstMatch(name, codes, i) && codes[i] == r.value
  {
    if |codes| == 0 then None
    else if Contains(name, codes[0]) then
      assert IsFirstMatch(name, codes, 0);
      Some(codes[0])
    else
      var r := FirstMatch(name, codes[1..]);
      if r.Some? then
        var i :| IsFirstMatch(name, codes[1..], i) && codes[1..][i] == r.value;
        assert IsFirstMatch(name, codes, i + 1);
        r
      else
        r
  }

  /** The language code a file name is assigned to, if any. */
  function MatchLanguage(name: string): (r: Option<string>)
    ensures r.Some? ==> r.value in Codes && Contains(name, r.value)
    ensures r.None? <==> forall c :: c in Codes ==> !Contains(name, c)
  {
    FirstMatch(name, Codes)
  }

  /**
   * The matcher picks exactly the earliest registry code found in the name:
   * its answer is `Codes[i]` if and only if `i` is that earliest position.
   */
  lemma {:induction false} MatchIsFirst(name: string, i: int)
    requires 0 <= i < |Codes|
    ensures MatchLanguage(name) == Some(Codes[i]) <==> IsFirstMatch(name, Codes, i)
  {
    var codes := Codes;
    CodesDistinct();
    var r := MatchLanguage(name);
    if r == Some(codes[i]) {
      var k :| IsFirstMatch(name, codes, k) && codes[k] == r.value;
      assert k == i;
    }
    if IsFirstMatch(name, codes, i) {
      assert r.Some?;
      var k :| IsFirstMatch(name, codes, k) && codes[k] == r.value;
      assert !(k < i) && !(i < k);
    }
  }

  /**
   * A code that contains an earlier registry code is shadowed by it: no file
   * name is ever assigned to the later one.
   */
  lemma ShadowedCodeNeverMatched(name: string, i: int, j: int)
    requires 0 <= i < j < |Codes|
    requires Contains(Codes[j], Codes[i])
    ensures MatchLanguage(name) != Some(Codes[j])
  {
    if MatchLanguage(name) == Some(Codes[j]) {
      MatchIsFirst(name, j);
      ContainsTransitive(Codes[i], Codes[j], name);
      assert false;
    }
  }

  /** `spa` comes before `spa-M9` and occurs in it. */
  lemma SpaShadowsSpaM9()
    ensures Codes[0] == "spa" && Codes[1] == "spa-M9"
    ensures Contains(Codes[1], Codes[0])
  {
    assert "spa-M9"[0..3] == "spa";
    assert OccursAt("spa", "spa-M9", 0);
  }

  /** No file name is ever assigned to `spa-M9`. */
  lemma SpaM9NeverMatched(name: string)
    ensures MatchLanguage(name) != Some("spa-M9")
  {
    SpaShadowsSpaM9();
    ShadowedCodeNeverMatched(name, 0, 1);
  }

  /** A file named for `spa-M9` (say `x_spa-M9.txt`) is assigned to `spa`. */
  lemma SpaM9NameGoesToSpa(name: string)
    requires Contains(name, "spa-M9")
    ensures MatchLanguage(name) == Some("spa")
  {
    SpaShadowsSpaM9();
    ContainsTransitive("spa", "spa-M9", name);
    MatchIsFirst(name, 0);
  }

  /** The language each uploaded name is assigned to, in upload order. */
  function Assignments(names: seq<string>): (os: seq<Option<string>>)
    ensures |os| == |names|
    ensures forall k :: 0 <= k < |names| ==> os[k] == MatchLanguage(names[k])
  {
    seq(|names|, k requires 0 <= k < |names| => MatchLanguage(names[k]))
  }

  /** The loop `if found: uploaded_langs.append(code)`: the present values, in order. */
  function Present(os: seq<Option<string>>): (cs: seq<string>)
  {
    if |os| == 0 then []
    else
      var prev := Present(os[..|os| - 1]);
      match os[|os| - 1]
      case Some(c) => prev + [c]
      case None => prev
  }

  /** A value is collected exactly when some entry holds it. */
  lemma {:induction false} PresentMembers(os: seq<Option<string>>, c: string)
    ensures c in Present(os) <==> exists k :: 0 <= k < |os| && os[k] == Some(c)
  {
    if |os| > 0 {
      var init := os[..|os| - 1];
      PresentMembers(init, c);
      if c in Present(init) {
        var k :| 0 <= k < |init| && init[k] == Some(c);
        assert os[k] == Some(c);
      }
      if exists k :: 0 <= k < |os| && os[k] == Some(c) {
        var k :| 0 <= k < |os| && os[k] == Some(c);
        if k < |init| {
          assert init[k] == os[k];
        }
      }
    }
  }

  /** The codes collected by the upload summary loop (app.py lines 160-165). */
  function UploadedLangs(names: seq<string>): (cs: seq<string>)
  {
    Present(Assignments(names))
  }

  lemma {:induction false} SetOfSeqSize(s: seq<string>)
    ensures |set c | c in s| <= |s|
  {
    if |s| > 0 {
      var last := s[|s| - 1];
      var init := s[..|s| - 1];
      SetOfSeqSize(init);
      assert s == init + [last];
      assert (set c | c in s) == (set c | c in init) + {last};
    }
  }

  /**
   * The missing set computed at app.py line 167: the registry codes that no
   * uploaded file name was assigned to.
   */
  function MissingLangs(names: seq<string>): (r: set<string>)
    ensures forall c :: c in r <==> c in Codes && forall k :: 0 <= k < |names| ==> MatchLanguage(names[k]) != Some(c)
    ensures |r| <= 12
  {
    var all := set c | c in Codes;
    var r := all - (set c | c in UploadedLangs(names));
    SetOfSeqSize(Codes);
    forall c
      ensures c in r <==> c in Codes && forall k :: 0 <= k < |names| ==> MatchLanguage(names[k]) != Some(c)
    {
      PresentMembers(Assignments(names), c);
    }
    r
  }

  /** The missing set is empty exactly when every registry code was matched by some file. */
  lemma MissingEmptyIff(names: seq<string>)
    ensures MissingLangs(names) == {} <==>
      forall c :: c in Codes ==> exists k :: 0 <= k < |names| && MatchLanguage(names[k]) == Some(c)
  {
  }

  /**
   * The "Missing:" warning of the upload panel (app.py lines 156-169): none
   * while no file is uploaded; otherwise the missing set, when it is not
   * empty.
   */
  function MissingWarning(names: seq<string>): (r: Option<set<string>>)
  {
    if |names| == 0 then None
    else
      var missing := MissingLangs(names);
      if missing != {} then Some(missing) else None
  }

  /**
   * The warning is silent exactly when nothing is uploaded or every registry
   * code was matched by some file; when shown, it lists every unmatched
   * registry code and nothing else.
   */
  lemma WarningSilentIff(names: seq<string>)
    ensures MissingWarning(names).None? <==>
      |names| == 0 || forall c :: c in Codes ==> exists k :: 0 <= k < |names| && MatchLanguage(names[k]) == Some(c)
    ensures MissingWarning(names).Some? ==> forall c :: c in MissingWarning(names).value <==>
      c in Codes && forall k :: 0 <= k < |names| ==> MatchLanguage(names[k]) != Some(c)
  {
    MissingEmptyIff(names);
  }

  /**
   * `spa-M9` is always in the missing set, so the warning is shown exactly
   * when some file is uploaded, and it then names `spa-M9`.
   */
  lemma SpaM9AlwaysMissing(names: seq<string>)
    ensures "spa-M9" in MissingLangs(names)
    ensures MissingWarning(names).Some? <==> |names| > 0
    ensures |names| > 0 ==> "spa-M9" in MissingWarning(names).value
  {
    SpaM9MatchesNoUpload(names);
    assert "spa-M9" in Codes;
    var missing := MissingLangs(names);
    assert "spa-M9" in missing;
  }

  /** No uploaded name is matched to `spa-M9`. */
  lemma SpaM9MatchesNoUpload(names: seq<string>)
    ensures forall k :: 0 <= k < |names| ==> MatchLanguage(names[k]) != Some("spa-M9")
  {
    forall k | 0 <= k < |names|
      ensures MatchLanguage(names[k]) != Some("spa-M9")
    {
      SpaM9NeverMatched(names[k]);
    }
  }
}
