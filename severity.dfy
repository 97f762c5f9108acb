/** The severity resolver of the booking page: the highest severity the symptom
    table gives to any of an appointment's reasons, 0 when none is listed. */
module SymptomSeverity {

  /** One `{tag: severity}` entry of the symptom table. */
  datatype Entry = Entry(tag: string, severity: int)

  /** The symptom table: its categories, in file order, each a list of entries. */
  type Table = seq<seq<Entry>>

  function Max(a: int, b: int): int {
    if a < b then b else a
  }

  /** What one entry contributes for one reason: its severity if the tags agree, else 0. */
  function EntryScore(e: Entry, tag: string): int {
    if e.tag == tag then e.severity else 0
  }

  function CategorySeverity(category: seq<Entry>, tag: string): (h: int)
    ensures h >= 0
  {
    if category == [] then 0
    else Max(CategorySeverity(category[..|category| - 1], tag), EntryScore(category[|category| - 1], tag))
  }

  function TagSeverity(table: Table, tag: string): (h: int)
    ensures h >= 0
  {
    if table == [] then 0
    else Max(TagSeverity(table[..|table| - 1], tag), CategorySeverity(table[|table| - 1], tag))
  }

  /** The running maximum of the nested scan, over reasons, then categories, then entries. */
  function Severity(table: Table, reasons: seq<string>): (h: int)
    ensures h >= 0
  {
    if reasons == [] then 0
    else Max(Severity(table, reasons[..|reasons| - 1]), TagSeverity(table, reasons[|reasons| - 1]))
  }

  /** h is the highest severity of an entry whose tag is one of the reasons, or 0
      when there is none or all of them are below 0. */
  predicate IsHighestSeverity(table: Table, reasons: seq<string>, h: int) {
    && h >= 0
    && (forall c, k :: 0 <= c < |table| && 0 <= k < |table[c]| && table[c][k].tag in reasons
          ==> table[c][k].severity <= h)
    && (h == 0 || (exists c, k :: 0 <= c < |table| && 0 <= k < |table[c]| && table[c][k].tag in reasons
                                && table[c][k].severity == h))
  }

  lemma {:induction false} CategorySeverityIsHighest(category: seq<Entry>, tag: string)
    ensures forall k :: 0 <= k < |category| && category[k].tag == tag
              ==> category[k].severity <= CategorySeverity(category, tag)
    ensures CategorySeverity(category, tag) == 0
            || exists k :: 0 <= k < |category| && category[k].tag == tag
                 && category[k].severity == CategorySeverity(category, tag)
    decreases |category|
  {
    if category != [] {
      var init := category[..|category| - 1];
      CategorySeverityIsHighest(init, tag);
      assert forall k :: 0 <= k < |init| ==> init[k] == category[k];
    }
  }

  lemma {:induction false} TagSeverityIsHighest(table: Table, tag: string)
    ensures forall c, k :: 0 <= c < |table| && 0 <= k < |table[c]| && table[c][k].tag == tag
              ==> table[c][k].severity <= TagSeverity(table, tag)
    ensures TagSeverity(table, tag) == 0
            || exists c, k :: 0 <= c < |table| && 0 <= k < |table[c]| && table[c][k].tag == tag
                 && table[c][k].severity == TagSeverity(table, tag)
    decreases |table|
  {
    if table != [] {
      var init := table[..|table| - 1];
      TagSeverityIsHighest(init, tag);
      CategorySeverityIsHighest(table[|table| - 1], tag);
      assert forall c :: 0 <= c < |init| ==> init[c] == table[c];
    }
  }

  /** The scan computes the highest matching severity: the resolver's contract. */
  lemma {:induction false} SeverityIsHighest(table: Table, reasons: seq<string>)
    ensures IsHighestSeverity(table, reasons, Severity(table, reasons))
    decreases |reasons|
  {
    if reasons != [] {
      var init := reasons[..|reasons| - 1];
      var last := reasons[|reasons| - 1];
      SeverityIsHighest(table, init);
      TagSeverityIsHighest(table, last);
      forall t ensures t in reasons <==> t in init || t == last {
        assert reasons == init + [last];
      }
    }
  }

  /** At most one value is the highest severity. */
  lemma HighestIsUnique(table: Table, reasons: seq<string>, h1: int, h2: int)
    requires IsHighestSeverity(table, reasons, h1) && IsHighestSeverity(table, reasons, h2)
    ensures h1 == h2
  {
  }

  /** The severity depends only on which tags are listed, not on their order or repetition. */
  lemma SeverityDependsOnTagSet(table: Table, r1: seq<string>, r2: seq<string>)
    requires forall t :: t in r1 <==> t in r2
    ensures Severity(table, r1) == Severity(table, r2)
  {
    SeverityIsHighest(table, r1);
    SeverityIsHighest(table, r2);
    HighestIsUnique(table, r2, Severity(table, r1), Severity(table, r2));
  }

  /** The severity of two reason lists together is the larger of their severities. */
  lemma SeverityOfUnion(table: Table, r1: seq<string>, r2: seq<string>)
    ensures Severity(table, r1 + r2) == Max(Severity(table, r1), Severity(table, r2))
  {
    var h1, h2 := Severity(table, r1), Severity(table, r2);
    SeverityIsHighest(table, r1);
    SeverityIsHighest(table, r2);
    SeverityIsHighest(table, r1 + r2);
    assert IsHighestSeverity(table, r1 + r2, Max(h1, h2));
    HighestIsUnique(table, r1 + r2, Severity(table, r1 + r2), Max(h1, h2));
  }

  /** Reasons the table does not list (an empty reason list among them) give severity 0. */
  lemma UnknownReasonsGiveZero(table: Table, reasons: seq<string>)
    requires forall c, k :: 0 <= c < |table| && 0 <= k < |table[c]| ==> table[c][k].tag !in reasons
    ensures Severity(table, reasons) == 0
  {
    SeverityIsHighest(table, reasons);
  }

  /** getSeverity: the triple loop over reasons, categories and entries that keeps
      the highest severity seen so far, starting from 0. */
  method GetSeverity(table: Table, reasons: seq<string>) returns (highest: int)
    ensures highest == Severity(table, reasons)
    ensures IsHighestSeverity(table, reasons, highest)
  {
    highest := 0;
    for i := 0 to |reasons|
      invariant highest == Severity(table, reasons[..i])
    {
      var tag := reasons[i];
      ghost var before := highest;
      for j := 0 to |table|
        invariant highest == Max(before, TagSeverity(table[..j], tag))
      {
        ghost var outer := highest;
        for k := 0 to |table[j]|
          invariant highest == Max(outer, CategorySeverity(table[j][..k], tag))
        {
          var entry := table[j][k];
          var temp := if entry.tag == tag then entry.severity else 0;
          highest := if temp > highest then temp else highest;
          assert table[j][..k + 1][..k] == table[j][..k];
        }
        assert table[j][..|table[j]|] == table[j];
        assert table[..j + 1][..j] == table[..j];
      }
      assert table[..|table|] == table;
      assert reasons[..i + 1][..i] == reasons[..i];
    }
    assert reasons[..|reasons|] == reasons;
    SeverityIsHighest(table, reasons);
  }
}
