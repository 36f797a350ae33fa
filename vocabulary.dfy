/**
 * The token-to-id lookup the encoder uses. The active encoder reads a plain
 * `stoi` dictionary and falls back to the id of the key "unk"; the older one
 * calls a torchtext vocabulary whose default index is set, so it falls back to
 * a fixed id.
 */
module Vocabulary {
  import opened Wrappers

  /** The key whose id fills padding. */
  const PadToken: string := "<pad>"

  /** The key whose id stands for a token missing from `stoi`. */
  const UnkToken: string := "unk"

  /** What happens to a token that is not a key. */
  datatype Fallback =
    | UnkKey              // `stoi['unk']`, a KeyError when "unk" is not a key either
    | DefaultId(id: int)  // the vocabulary's default index

  datatype Vocab = Vocab(stoi: map<string, int>, fallback: Fallback)

  /** The id of one token, or None when the lookup raises. */
  function Lookup(v: Vocab, x: string): Option<int>
  {
    if x in v.stoi then Some(v.stoi[x])
    else match v.fallback
      case DefaultId(d) => Some(d)
      case UnkKey => if UnkToken in v.stoi then Some(v.stoi[UnkToken]) else None
  }

  /** The ids of all tokens, in order; None when any lookup raises. */
  function LookupAll(v: Vocab, tokens: seq<string>): (r: Option<seq<int>>)
    ensures r.Some? <==> forall j :: 0 <= j < |tokens| ==> Lookup(v, tokens[j]).Some?
    ensures r.Some? ==> |r.value| == |tokens|
    ensures r.Some? ==> forall j :: 0 <= j < |tokens| ==> r.value[j] == Lookup(v, tokens[j]).value
    decreases |tokens|
  {
    if tokens == [] then Some([])
    else
      var init := LookupAll(v, tokens[..|tokens| - 1]);
      var last := Lookup(v, tokens[|tokens| - 1]);
      if init.None? || last.None? then None else Some(init.value + [last.value])
  }

  /** A vocabulary with a default id never fails. */
  lemma DefaultNeverFails(v: Vocab, tokens: seq<string>)
    requires v.fallback.DefaultId?
    ensures LookupAll(v, tokens).Some?
  {
  }

  /** With the "unk" fallback, encoding fails exactly when some token is unknown and "unk" is missing. */
  lemma UnkFailure(v: Vocab, tokens: seq<string>)
    requires v.fallback.UnkKey?
    ensures LookupAll(v, tokens).None? <==> UnkToken !in v.stoi && exists j :: 0 <= j < |tokens| && tokens[j] !in v.stoi
  {
  }
}
