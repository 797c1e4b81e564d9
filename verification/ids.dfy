/** `utils.GenId`: a six-character identifier drawn from a fixed alphabet.
    The pseudo-random generator is replaced by the sequence of indices it
    returns, so the identifier is a pure function of those draws. */
module Ids {

  const Charset: string := "abcdefghijklmnopqrstuvwxyz0123456789"

  const IdLength: nat := 6

  /** Six draws, each a result of `Intn(len(charset))`, hence below 36. */
  predicate ValidDraws(draws: seq<nat>) {
    |draws| == IdLength && forall i :: 0 <= i < |draws| ==> draws[i] < |Charset|
  }

  predicate OverCharset(s: string) {
    forall i :: 0 <= i < |s| ==> s[i] in Charset
  }

  function GenId(draws: seq<nat>): (id: string)
    requires ValidDraws(draws)
    ensures |id| == IdLength
    ensures OverCharset(id)
    ensures forall i :: 0 <= i < IdLength ==> id[i] == Charset[draws[i]]
  {
    seq(IdLength, i requires 0 <= i < IdLength => Charset[draws[i]])
  }

  /** The same loop as the source: fill a six-byte buffer position by position. */
  method GenIdLoop(draws: seq<nat>) returns (id: string)
    requires ValidDraws(draws)
    ensures id == GenId(draws)
  {
    id := [];
    var i := 0;
    while i < IdLength
      invariant 0 <= i <= IdLength
      invariant |id| == i
      invariant forall j :: 0 <= j < i ==> id[j] == Charset[draws[j]]
    {
      id := id + [Charset[draws[i]]];
      i := i + 1;
    }
  }

  /** Position of a character in an alphabet that contains it. */
  function IndexIn(s: string, c: char): (i: nat)
    requires c in s
    ensures i < |s| && s[i] == c
  {
    if s[0] == c then 0 else 1 + IndexIn(s[1..], c)
  }

  /** No character appears twice in the alphabet. */
  lemma CharsetIsDistinct()
    ensures forall i, j :: 0 <= i < j < |Charset| ==> Charset[i] != Charset[j]
  {
  }

  /** Different draws give different identifiers. */
  lemma GenIdIsInjective(d1: seq<nat>, d2: seq<nat>)
    requires ValidDraws(d1) && ValidDraws(d2)
    ensures GenId(d1) == GenId(d2) ==> d1 == d2
  {
    if GenId(d1) == GenId(d2) {
      CharsetIsDistinct();
      forall i | 0 <= i < IdLength
        ensures d1[i] == d2[i]
      {
        assert Charset[d1[i]] == GenId(d1)[i] == GenId(d2)[i] == Charset[d2[i]];
      }
    }
  }

  /** Every six-character string over the alphabet is reachable by some draws. */
  lemma GenIdIsOnto(id: string)
    requires |id| == IdLength && OverCharset(id)
    ensures exists draws :: ValidDraws(draws) && GenId(draws) == id
  {
    var draws := seq(IdLength, i requires 0 <= i < IdLength => IndexIn(Charset, id[i]));
    assert ValidDraws(draws);
    assert GenId(draws) == id;
  }
}
