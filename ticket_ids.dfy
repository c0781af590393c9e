/**
 * `generate_ticket_id`: eight characters drawn with `random.choices` from
 * `string.ascii_uppercase + string.digits`. The random draws are a
 * parameter: one alphabet index per character.
 */
module TicketIds {
  const Uppercase: string := "ABCDEFGHIJKLMNOPQRSTUVWXYZ"
  const Digits: string := "0123456789"
  const Alphabet: string := Uppercase + Digits
  const IdLength: nat := 8

  /** An eight-character string over A-Z and 0-9. */
  predicate IsTicketId(s: string) {
    |s| == IdLength && forall i :: 0 <= i < |s| ==> s[i] in Alphabet
  }

  /** What `random.choices(alphabet, k=8)` can draw: eight indices into the alphabet. */
  predicate ValidDraws(draws: seq<nat>) {
    |draws| == IdLength && forall i :: 0 <= i < |draws| ==> draws[i] < |Alphabet|
  }

  function Generate(draws: seq<nat>): (id: string)
    requires ValidDraws(draws)
    ensures IsTicketId(id)
  {
    seq(IdLength, i requires 0 <= i < IdLength => Alphabet[draws[i]])
  }

  ghost function IndexIn(ch: char): (k: nat)
    requires ch in Alphabet
    ensures k < |Alphabet| && Alphabet[k] == ch
  {
    var k :| 0 <= k < |Alphabet| && Alphabet[k] == ch; k
  }

  /** Every well-formed ticket id is one of the possible draws' results. */
  lemma EveryTicketIdIsGenerated(s: string)
    requires IsTicketId(s)
    ensures exists draws :: ValidDraws(draws) && Generate(draws) == s
  {
    var draws := seq(IdLength, i requires 0 <= i < IdLength => IndexIn(s[i]));
    assert ValidDraws(draws);
    assert Generate(draws) == s;
  }
}
