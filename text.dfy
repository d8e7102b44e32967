/** Strings built from several pieces, shared by the naming and prompt models. */
module Text {

  /** `''.join(pieces)`: the pieces one after another, in order. */
  function Flatten(pieces: seq<string>): string {
    if pieces == [] then [] else pieces[0] + Flatten(pieces[1..])
  }

  /** Adding a piece at the end adds its text at the end. */
  lemma {:induction false} FlattenSnoc(pieces: seq<string>, last: string)
    ensures Flatten(pieces + [last]) == Flatten(pieces) + last
  {
    if pieces == [] {
      assert [] + [last] == [last];
    } else {
      assert (pieces + [last])[1..] == pieces[1..] + [last];
      FlattenSnoc(pieces[1..], last);
    }
  }
}
