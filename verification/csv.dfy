/**
 * The one-line CSV record a submission is reported as:
 * `first_name,last_name,student_id,score_1,...,score_12,total`.
 * The injected harness prints it, the orchestrator synthesises the
 * all-zero variant, and the report's header has the same width.
 */
module Csv {
  import opened Text

  /** The number of problem columns every record carries. */
  const ProblemCount: nat := 12

  /** The three identity columns of a record. */
  datatype Identity = Identity(first: string, last: string, id: string)

  /** The identity used when the student's names cannot be found. */
  const UnknownIdentity: Identity := Identity("Unknown", "Unknown", "Unknown")

  predicate IdentityCommaFree(who: Identity) {
    ',' !in who.first && ',' !in who.last && ',' !in who.id
  }

  /** `[s] * n` */
  function Repeat(s: string, n: nat): (r: seq<string>)
    ensures |r| == n && forall k :: 0 <= k < n ==> r[k] == s
  {
    seq(n, _ => s)
  }

  /** The identity columns, the given columns joined by commas, then the total column. */
  function Record(who: Identity, fields: seq<string>, total: string): string {
    who.first + "," + who.last + "," + who.id + "," + Join(fields, ',') + "," + total
  }

  /** The record of a submission graded with zeros: twelve `0` columns and `0.00`. */
  function ZeroRow(who: Identity): string {
    Record(who, Repeat("0", ProblemCount), "0.00")
  }

  /** The column titles `problem_1` ... `problem_n`. */
  function ProblemTitles(n: nat): (r: seq<string>)
    ensures |r| == n
    ensures forall k :: 0 <= k < n ==> r[k] == "problem_" + IntToString(k + 1) && ',' !in r[k]
  {
    seq(n, k requires 0 <= k < n => "problem_" + IntToString(k + 1))
  }

  /** The header line of the grades report (without its line break). */
  function Header(): string {
    Record(Identity("first_name", "last_name", "student_id"), ProblemTitles(ProblemCount), "total")
  }

  /** A record is the comma-join of all its columns. */
  lemma RecordIsJoin(who: Identity, fields: seq<string>, total: string)
    requires |fields| >= 1
    ensures Record(who, fields, total) == Join([who.first, who.last, who.id] + fields + [total], ',')
  {
    var tail := fields + [total];
    var j := Join(fields, ',');
    var head := who.first + "," + who.last + "," + who.id + ",";
    assert Join(tail, ',') == j + [','] + total by {
      JoinSnoc(fields, total, ',');
    }
    assert [who.first, who.last, who.id] + fields + [total] == [who.first, who.last, who.id] + tail;
    JoinThree(who.first, who.last, who.id, tail);
    calc {
      Join([who.first, who.last, who.id] + tail, ',');
      head + (j + "," + total);
      { Assoc(head, j + ",", total); }
      head + (j + ",") + total;
      { Assoc(head, j, ","); }
      head + j + "," + total;
    }
  }

  lemma JoinThree(x: string, y: string, z: string, tail: seq<string>)
    requires |tail| >= 1
    ensures Join([x, y, z] + tail, ',') == x + "," + y + "," + z + "," + Join(tail, ',')
  {
    var a := [z] + tail;
    var b := [y] + a;
    assert [x] + b == [x, y, z] + tail;
    var j := Join(tail, ',');
    JoinCons(z, tail, ',');
    JoinCons(y, a, ',');
    JoinCons(x, b, ',');
    calc {
      Join([x] + b, ',');
      x + "," + (y + "," + (z + "," + j));
      { Assoc(x + ",", y + ",", z + "," + j); }
      x + "," + (y + ",") + (z + "," + j);
      { Assoc(x + ",", y, ","); }
      x + "," + y + "," + (z + "," + j);
      { Assoc(x + "," + y + ",", z + ",", j); }
      x + "," + y + "," + (z + ",") + j;
      { Assoc(x + "," + y + ",", z, ","); }
      x + "," + y + "," + z + "," + j;
    }
  }

  /**
   * When no column contains a comma, splitting a record at its commas gives
   * back exactly its columns: three identity columns, the given ones, the total.
   */
  lemma RecordColumns(who: Identity, fields: seq<string>, total: string)
    requires IdentityCommaFree(who) && ',' !in total
    requires |fields| >= 1 && forall k :: 0 <= k < |fields| ==> ',' !in fields[k]
    ensures Split(Record(who, fields, total), ',') == [who.first, who.last, who.id] + fields + [total]
  {
    RecordIsJoin(who, fields, total);
    var all := [who.first, who.last, who.id] + fields + [total];
    forall k | 0 <= k < |all| ensures ',' !in all[k] {
      if 3 <= k < 3 + |fields| {
        assert all[k] == fields[k - 3];
      }
    }
    SplitJoin(all, ',');
  }

  /** The zero row has the identity columns, twelve `0` columns and `0.00`. */
  lemma ZeroRowColumns(who: Identity)
    requires IdentityCommaFree(who)
    ensures Split(ZeroRow(who), ',') == [who.first, who.last, who.id] + Repeat("0", ProblemCount) + ["0.00"]
    ensures |Split(ZeroRow(who), ',')| == 3 + ProblemCount + 1
  {
    RecordColumns(who, Repeat("0", ProblemCount), "0.00");
  }

  /** The report header has 3 + 12 + 1 columns, the width of every zero row. */
  lemma HeaderColumns(who: Identity)
    requires IdentityCommaFree(who)
    ensures Split(Header(), ',') == ["first_name", "last_name", "student_id"] + ProblemTitles(ProblemCount) + ["total"]
    ensures |Split(Header(), ',')| == |Split(ZeroRow(who), ',')| == 16
  {
    RecordColumns(Identity("first_name", "last_name", "student_id"), ProblemTitles(ProblemCount), "total");
    ZeroRowColumns(who);
  }
}
