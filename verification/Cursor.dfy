/** What every internal iterator is: a cursor over a strictly sorted list of entries. */
module Cursor {
  import opened Keys
  import opened Meaning

  datatype Move = First | Last | Seek(target: InternalKey) | Next | Prev

  predicate OnList(es: seq<Entry>, c: Option<nat>) { c.Some? ==> c.value < |es| }

  /** Next and Prev are only called on a valid iterator. */
  predicate Allowed(m: Move, c: Option<nat>) { m.Next? || m.Prev? ==> c.Some? }

  /** Position i, or nowhere if it is off either end. */
  function At(es: seq<Entry>, i: int): (c: Option<nat>)
    ensures OnList(es, c)
  {
    if 0 <= i < |es| then Some(i) else None
  }

  function Moved(es: seq<Entry>, m: Move, c: Option<nat>): (r: Option<nat>)
    requires OnList(es, c) && Allowed(m, c)
    ensures OnList(es, r)
  {
    match m
    case First => At(es, 0)
    case Last => At(es, |es| - 1)
    case Seek(t) => At(es, SeekIndex(es, t))
    case Next => At(es, c.value + 1)
    case Prev => At(es, c.value - 1)
  }

  lemma PrevIs(es: seq<Entry>, c: nat)
    requires c < |es|
    ensures Moved(es, Prev, Some(c)) == if c > 0 then Some(c - 1) else None
  {
  }

  ghost predicate Legal(es: seq<Entry>, moves: seq<Move>, c: Option<nat>)
    requires OnList(es, c)
  {
    moves == [] || (Allowed(moves[0], c) && Legal(es, moves[1..], Moved(es, moves[0], c)))
  }

  ghost function MovedAll(es: seq<Entry>, moves: seq<Move>, c: Option<nat>): Option<nat>
    requires OnList(es, c) && Legal(es, moves, c)
  {
    if moves == [] then c else MovedAll(es, moves[1..], Moved(es, moves[0], c))
  }
}
