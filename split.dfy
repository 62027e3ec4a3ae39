/** `split_by_author`: the labelled rows of each author, as two order-preserving filters. */
module Split {
  import opened Base
  import opened Text
  import opened Roles

  /** The labelled message table as read back: whether it has the `author_role` column, and its rows. */
  datatype Table = Table(hasRoleColumn: bool, rows: seq<Labeled>)

  /** Either the stage stops at the column guard and writes nothing, or it writes the two files. */
  datatype SplitOutcome = MissingColumn | Written(a: seq<Labeled>, b: seq<Labeled>)

  predicate IsA(row: Labeled) {
    row.role == AuthorA
  }

  predicate IsB(row: Labeled) {
    row.role == AuthorB
  }

  function SplitByAuthor(t: Table): (out: SplitOutcome)
    ensures out.MissingColumn? <==> !t.hasRoleColumn
    ensures out.Written? ==> |out.a| + |out.b| <= |t.rows|
  {
    if !t.hasRoleColumn then MissingColumn
    else
      DisjointFilterLength(t.rows, IsA, IsB);
      Written(Filter(t.rows, IsA), Filter(t.rows, IsB))
  }

  /**
   * Each output holds exactly the rows with its role, each as often as in the input and in input order;
   * a row in neither role, `other` in particular, is in neither output, and no row is in both.
   */
  lemma SplitExact(t: Table, row: Labeled)
    requires t.hasRoleColumn
    ensures Count(SplitByAuthor(t).a, row) == if row.role == AuthorA then Count(t.rows, row) else 0
    ensures Count(SplitByAuthor(t).b, row) == if row.role == AuthorB then Count(t.rows, row) else 0
    ensures IsSubseq(SplitByAuthor(t).a, t.rows) && IsSubseq(SplitByAuthor(t).b, t.rows)
    ensures !(row in SplitByAuthor(t).a && row in SplitByAuthor(t).b)
    ensures row.role == Other ==> row !in SplitByAuthor(t).a && row !in SplitByAuthor(t).b
  {
    FilterCount(t.rows, IsA, row);
    FilterCount(t.rows, IsB, row);
    FilterSubseq(t.rows, IsA);
    FilterSubseq(t.rows, IsB);
  }

  /** Two filters with conditions that never hold together keep at most the input's length between them. */
  lemma {:induction false} DisjointFilterLength<T>(s: seq<T>, p: T -> bool, q: T -> bool)
    requires forall x :: !(p(x) && q(x))
    ensures |Filter(s, p)| + |Filter(s, q)| <= |s|
  {
    if s != [] {
      DisjointFilterLength(s[..|s| - 1], p, q);
    }
  }

  /**
   * After the role stage, the first output is exactly the rows whose sender equals the first label up
   * to case, and the second those that match only the second label.
   */
  lemma SplitAfterRoles(a: Assignment, row: Labeled)
    requires forall k :: 0 <= k < |a.rows| ==>
      a.rows[k].role == ClassifySender(a.rows[k].record.sender, a.used.a, a.used.b)
    requires row in a.rows
    ensures row in SplitByAuthor(Table(true, a.rows)).a <==> Lower(a.used.a) == Lower(row.record.sender)
    ensures row in SplitByAuthor(Table(true, a.rows)).b <==>
      Lower(a.used.a) != Lower(row.record.sender) && Lower(a.used.b) == Lower(row.record.sender)
  {
    SplitExact(Table(true, a.rows), row);
  }
}
