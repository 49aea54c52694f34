/** The fixed, ordered registry of the twelve target languages (`LANGUAGES`). */
module Languages {
  import opened Wrappers
  import opened OrderedMaps

  /** The language codes in registry order: the order of matching and of processing. */
  const Codes: seq<string> :=
    ["spa", "spa-M9", "tha", "zho-CN", "zho-TW", "fre", "ger", "ita", "jpn", "kor", "por-BR", "rus"]

  /** The display name of each code, position by position. */
  const Names: seq<string> :=
    ["Spanish", "Spanish Mexico", "Thai", "Simplified Chinese", "Traditional Chinese", "French",
     "German", "Italian", "Japanese", "Korean", "Portuguese Brazil", "Russian"]

  /** `LANGUAGES`: each code paired with its display name, in registry order. */
  const Registry: OrderedMap<string, string> := Pair(Codes, Names)

  /** Pairs up two lists of equal length, position by position. */
  function Pair(ks: seq<string>, vs: seq<string>): (m: OrderedMap<string, string>)
    requires |ks| == |vs|
    ensures |m| == |ks|
    ensures forall i :: 0 <= i < |m| ==> m[i] == (ks[i], vs[i])
  {
    seq(|ks|, i requires 0 <= i < |ks| => (ks[i], vs[i]))
  }

  /** No code appears twice in `Codes`. */
  lemma CodesDistinct()
    ensures forall i, j :: 0 <= i < j < |Codes| ==> Codes[i] != Codes[j]
  {
  }

  /** Pairing keeps the keys in order, and distinct keys stay distinct. */
  lemma PairKeys(ks: seq<string>, vs: seq<string>)
    requires |ks| == |vs|
    ensures Keys(Pair(ks, vs)) == ks
    ensures (forall i, j :: 0 <= i < j < |ks| ==> ks[i] != ks[j]) ==> DistinctKeys(Pair(ks, vs))
  {
    var m := Pair(ks, vs);
    assert forall i :: 0 <= i < |m| ==> Keys(m)[i] == m[i].0 == ks[i];
  }

  /** The registry's keys are `Codes`, in order, and none is repeated. */
  lemma RegistryKeys()
    ensures Keys(Registry) == Codes
    ensures DistinctKeys(Registry)
  {
    CodesDistinct();
    PairKeys(Codes, Names);
  }

  /**
   * `LANGUAGES.get(code, code)`: the display name of a registry code, and the
   * code itself for anything else.
   */
  function Label(code: string): (r: string)
    ensures forall i :: 0 <= i < |Codes| && Codes[i] == code ==> r == Names[i]
    ensures code !in Codes ==> r == code
  {
    RegistryKeys();
    forall i | 0 <= i < |Codes| && Codes[i] == code
      ensures Lookup(Registry, code) == Some(Names[i])
    {
      LookupAt(Registry, i);
    }
    match Lookup(Registry, code)
    case Some(name) => name
    case None => code
  }

  /** The registry maps exactly its codes, each to its label. */
  lemma RegistryLookup(code: string)
    ensures Lookup(Registry, code) == if code in Codes then Some(Label(code)) else None
  {
    RegistryKeys();
  }

  /** The Spanish code is labelled "Spanish". */
  lemma SpanishLabel()
    ensures Label("spa") == "Spanish"
  {
    assert Codes[0] == "spa" && Names[0] == "Spanish";
  }
}
