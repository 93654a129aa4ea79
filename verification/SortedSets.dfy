/** A Redis sorted set of printed rows: the members are text, the callers think in rows. */
module SortedSets {

  /** How rows of one kind are printed and parsed. */
  datatype RowFormat<!R(==,!new)> = RowFormat(parse: string -> R, print_: R -> string) {
    /** The row survives being printed and parsed. */
    predicate Keeps(r: R) { parse(print_(r)) == r }

    /** The text is the print of a row that survives. */
    predicate Canonical(s: string) { print_(parse(s)) == s && Keeps(parse(s)) }

    /** Every row that fits survives, and no other kind of row is ever read. */
    ghost predicate Lawful(fits: R -> bool) {
      (forall r :: fits(r) ==> Keeps(r)) && (forall s :: fits(parse(s)))
    }
  }

  class SortedSet<R(==,!new)> {
    const format: RowFormat<R>
    var members: map<string, int>
    /** The rows the members print, with the same scores. */
    ghost var rows: map<R, int>

    ghost predicate Valid()
      reads this
    {
      && (forall r <- rows :: format.Keeps(r) && format.print_(r) in members && members[format.print_(r)] == rows[r])
      && (forall s <- members :: format.parse(s) in rows && format.print_(format.parse(s)) == s)
    }

    constructor (format: RowFormat<R>)
      ensures Valid() && rows == map[] && this.format == format
    {
      this.format := format;
      members, rows := map[], map[];
    }

    /** ZADD of a row's print. */
    method Add(r: R, score: int)
      requires Valid() && format.Keeps(r)
      modifies this
      ensures Valid() && rows == old(rows)[r := score]
    {
      members := members[format.print_(r) := score];
      rows := rows[r := score];
    }

    /** ZREM of a member some row prints as. */
    method Remove(member: string)
      requires Valid() && format.Canonical(member)
      modifies this
      ensures Valid() && rows == old(rows) - {format.parse(member)}
    {
      members := members - {member};
      rows := rows - {format.parse(member)};
    }

    /** ZRANGEBYSCORE from 0 to `due`, in any order: each member once, and the row it prints. */
    method RangeByScore(due: int) returns (found: seq<string>, ghost order: seq<R>)
      requires Valid()
      ensures forall s :: s in found <==> s in members && 0 <= members[s] <= due
      ensures |found| == |order|
      ensures forall i :: 0 <= i < |order| ==>
        found[i] == format.print_(order[i]) && found[i] in members && order[i] in rows
      ensures forall i, j :: 0 <= i < j < |order| ==> order[i] != order[j]
      ensures forall r :: r in order <==> r in rows && 0 <= rows[r] <= due
    {
      found, order := [], [];
      var todo := set s | s in members && 0 <= members[s] <= due;
      while todo != {}
        invariant forall s :: s in members && 0 <= members[s] <= due <==> s in found || s in todo
        invariant |found| == |order|
        invariant forall i :: 0 <= i < |order| ==>
          found[i] == format.print_(order[i]) && found[i] in members && found[i] !in todo
        invariant forall i :: 0 <= i < |order| ==> order[i] in rows && 0 <= rows[order[i]] <= due
        invariant forall i, j :: 0 <= i < j < |order| ==> order[i] != order[j]
        invariant forall r <- rows :: 0 <= rows[r] <= due ==> r in order || format.print_(r) in todo
        decreases todo
      {
        var s :| s in todo;
        found := found + [s];
        order := order + [format.parse(s)];
        todo := todo - {s};
      }
    }
  }
}
