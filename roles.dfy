/** `add_author_role`: which two sender names are the authors, and the role of every message. */
module Roles {
  import opened Base
  import opened Text
  import opened Messages

  const AuthorA: string := "author_a"
  const AuthorB: string := "author_b"
  const Other: string := "other"

  /** The role of one sender: a case-insensitive match of the whole name, the first key tested first. */
  function ClassifySender(sender: string, aKey: string, bKey: string): (role: string)
    ensures role == AuthorA || role == AuthorB || role == Other
    ensures role == AuthorA <==> Lower(aKey) == Lower(sender)
    ensures role == AuthorB <==> Lower(aKey) != Lower(sender) && Lower(bKey) == Lower(sender)
  {
    var senderLower := Lower(sender);
    if Lower(aKey) == senderLower then AuthorA
    else if Lower(bKey) == senderLower then AuthorB
    else Other
  }

  /** Changing the case of the sender or of a key changes no role. */
  lemma ClassifyCaseInsensitive(sender: string, aKey: string, bKey: string)
    ensures ClassifySender(Lower(sender), aKey, bKey) == ClassifySender(sender, aKey, bKey)
    ensures ClassifySender(sender, Lower(aKey), Lower(bKey)) == ClassifySender(sender, aKey, bKey)
  {
    LowerIdempotent(sender);
    LowerIdempotent(aKey);
    LowerIdempotent(bKey);
  }

  /** A matched sender has exactly the key's length: a key inside a longer name does not match. */
  lemma ClassifyExact(sender: string, aKey: string, bKey: string)
    ensures ClassifySender(sender, aKey, bKey) == AuthorA ==> |sender| == |aKey|
    ensures ClassifySender(sender, aKey, bKey) == AuthorB ==> |sender| == |bKey|
    ensures |sender| != |aKey| && |sender| != |bKey| ==> ClassifySender(sender, aKey, bKey) == Other
  {
    assert |Lower(sender)| == |sender| && |Lower(aKey)| == |aKey| && |Lower(bKey)| == |bKey|;
  }

  /** With keys equal up to case, no sender is ever `author_b`. */
  lemma ClassifyEqualKeys(sender: string, aKey: string, bKey: string)
    requires Lower(aKey) == Lower(bKey)
    ensures ClassifySender(sender, aKey, bKey) != AuthorB
  {
  }

  // ---------------------------------------------------------------------------
  // Where the two labels come from

  /** Python's `x or y` on optional strings. */
  function Or(x: Option<string>, y: Option<string>): Option<string> {
    if Truthy(x) then x else y
  }

  /**
   * `parse_args` after argparse: `cfgA` and `cfgB` are what `load_config` would return (both None when
   * there is no readable config file); `consulted` tells whether it was called.
   */
  method MergeLabels(argA: Option<string>, argB: Option<string>, cfgA: Option<string>, cfgB: Option<string>)
    returns (a: Option<string>, b: Option<string>, consulted: bool)
    ensures consulted <==> !(Truthy(argA) && Truthy(argB))
    ensures Truthy(argA) ==> a == argA
    ensures Truthy(argB) ==> b == argB
    ensures !Truthy(argA) ==> a == cfgA
    ensures !Truthy(argB) ==> b == cfgB
    ensures a == Or(argA, cfgA) && b == Or(argB, cfgB)
  {
    a, b := argA, argB;
    consulted := false;
    if !Truthy(a) || !Truthy(b) {
      consulted := true;
      a := Or(a, cfgA);
      b := Or(b, cfgB);
    }
  }

  /** Index of the first candidate with the largest number of occurrences in `s`. */
  function MostFrequent(cands: seq<string>, s: seq<string>): (i: nat)
    requires cands != []
    ensures i < |cands|
    ensures forall k :: 0 <= k < |cands| ==> Count(s, cands[k]) <= Count(s, cands[i])
  {
    if |cands| == 1 then 0
    else
      var i := MostFrequent(cands[..|cands| - 1], s);
      if Count(s, cands[|cands| - 1]) > Count(s, cands[i]) then |cands| - 1 else i
  }

  datatype Labels = Labels(a: string, b: string)

  /** The exit status of `sys.exit(1)` when there are not two distinct senders. */
  const TooFewSenders: nat := 1

  /**
   * `auto_detect_roles`: the two most frequent senders. Ties are broken by first occurrence here;
   * the source does not promise a tie order.
   */
  function AutoDetect(senders: seq<string>): (r: Result<Labels, nat>)
    ensures r.Failure? ==> r.error == TooFewSenders
  {
    var d := Distinct(senders);
    if |d| < 2 then Failure(TooFewSenders)
    else
      var i := MostFrequent(d, senders);
      var rest := d[..i] + d[i + 1..];
      var j := MostFrequent(rest, senders);
      Success(Labels(d[i], rest[j]))
  }

  /** Auto-detection fails exactly when no two senders differ. */
  lemma AutoDetectFails(senders: seq<string>)
    ensures AutoDetect(senders).Failure? <==> forall i, j :: 0 <= i < j < |senders| ==> senders[i] == senders[j]
  {
    var d := Distinct(senders);
    if |d| < 2 {
      forall i, j | 0 <= i < j < |senders| ensures senders[i] == senders[j] {
        assert senders[i] in d && senders[j] in d;
      }
    } else {
      assert d[0] != d[1];
      var p :| 0 <= p < |senders| && senders[p] == d[0];
      var q :| 0 <= q < |senders| && senders[q] == d[1];
      if p < q {
        assert senders[p] != senders[q];
      } else {
        assert senders[q] != senders[p];
      }
    }
  }

  /**
   * On success: two different senders of the data, the first at least as frequent as the second and
   * as every sender, the second at least as frequent as every sender other than the first.
   */
  lemma AutoDetectTopTwo(senders: seq<string>, x: string)
    requires AutoDetect(senders).Success?
    ensures AutoDetect(senders).value.a != AutoDetect(senders).value.b
    ensures AutoDetect(senders).value.a in senders && AutoDetect(senders).value.b in senders
    ensures Count(senders, x) <= Count(senders, AutoDetect(senders).value.a)
    ensures x != AutoDetect(senders).value.a ==> Count(senders, x) <= Count(senders, AutoDetect(senders).value.b)
  {
    var d := Distinct(senders);
    var i := MostFrequent(d, senders);
    var rest := d[..i] + d[i + 1..];
    var j := MostFrequent(rest, senders);
    assert AutoDetect(senders).value == Labels(d[i], rest[j]);
    var jj := RemoveAt(d, i, j);
    assert d[i] != d[jj];
    if x in senders {
      var k :| 0 <= k < |d| && d[k] == x;
      if x != d[i] {
        var kk := RemoveAtInverse(d, i, k);
        assert Count(senders, rest[kk]) <= Count(senders, rest[j]);
      }
    }
  }

  /** Position `j` of `d` with its element `i` removed is position `jj != i` of `d`. */
  lemma RemoveAt(d: seq<string>, i: nat, j: nat) returns (jj: nat)
    requires i < |d| && j < |d| - 1
    ensures jj < |d| && jj != i && (d[..i] + d[i + 1..])[j] == d[jj]
  {
    jj := if j < i then j else j + 1;
  }

  /** Every element of `d` other than the one at `i` has a position in `d` with `i` removed. */
  lemma RemoveAtInverse(d: seq<string>, i: nat, k: nat) returns (kk: nat)
    requires i < |d| && k < |d| && k != i
    ensures kk < |d| - 1 && (d[..i] + d[i + 1..])[kk] == d[k]
  {
    kk := if k < i then k else k - 1;
  }

  // ---------------------------------------------------------------------------
  // The labelling in `main`

  /** A message row with the `author_role` column added. */
  datatype Labeled = Labeled(record: Record, role: string)

  /** What `main` writes: the labelled rows and the names saved as the roles used. */
  datatype Assignment = Assignment(rows: seq<Labeled>, used: Labels)

  /** The labels after the merge, if both are present; otherwise the auto-detected ones. */
  function UsedLabels(records: seq<Record>, a: Option<string>, b: Option<string>): Result<Labels, nat> {
    if Truthy(a) && Truthy(b) then Success(Labels(a.value, b.value))
    else AutoDetect(Senders(records))
  }

  function Senders(records: seq<Record>): (s: seq<string>)
    ensures |s| == |records|
    ensures forall k :: 0 <= k < |records| ==> s[k] == records[k].sender
  {
    seq(|records|, k requires 0 <= k < |records| => records[k].sender)
  }

  /**
   * `main` of the role stage on the rows read back from the message table: both labels are kept if
   * both are present after the merge, otherwise both are replaced by auto-detection, and every row gets
   * the role of its sender under the labels that are also saved.
   */
  method AssignRoles(records: seq<Record>, argA: Option<string>, argB: Option<string>,
                     cfgA: Option<string>, cfgB: Option<string>) returns (r: Result<Assignment, nat>)
    ensures r.Failure? <==> UsedLabels(records, Or(argA, cfgA), Or(argB, cfgB)).Failure?
    ensures r.Failure? ==> r.error == TooFewSenders
    ensures r.Success? ==> r.value.used == UsedLabels(records, Or(argA, cfgA), Or(argB, cfgB)).value
    ensures r.Success? ==> |r.value.rows| == |records|
    ensures r.Success? ==> forall k :: 0 <= k < |records| ==>
      r.value.rows[k] == Labeled(records[k], ClassifySender(records[k].sender, r.value.used.a, r.value.used.b))
  {
    var a, b, _ := MergeLabels(argA, argB, cfgA, cfgB);
    var labels: Labels;
    if !Truthy(a) || !Truthy(b) {
      var detected := AutoDetect(Senders(records));
      if detected.Failure? {
        return Failure(detected.error);
      }
      labels := detected.value;
    } else {
      labels := Labels(a.value, b.value);
    }
    var rows := LabelRows(records, labels);
    r := Success(Assignment(rows, labels));
  }

  /** `df["author_role"] = df["sender"].apply(...)`: the role column, one entry per row. */
  method LabelRows(records: seq<Record>, labels: Labels) returns (rows: seq<Labeled>)
    ensures |rows| == |records|
    ensures forall k :: 0 <= k < |records| ==> rows[k] == Labeled(records[k], ClassifySender(records[k].sender, labels.a, labels.b))
  {
    rows := [];
    var k := 0;
    while k < |records|
      invariant 0 <= k <= |records|
      invariant |rows| == k
      invariant forall m :: 0 <= m < k ==> rows[m] == Labeled(records[m], ClassifySender(records[m].sender, labels.a, labels.b))
    {
      rows := rows + [Labeled(records[k], ClassifySender(records[k].sender, labels.a, labels.b))];
      k := k + 1;
    }
  }

  /** A single label given on the command line, with no config, is discarded in favour of auto-detection. */
  lemma SingleLabelDiscarded(records: seq<Record>, name: string)
    requires name != ""
    ensures UsedLabels(records, Some(name), None) == AutoDetect(Senders(records))
  {
  }
}
