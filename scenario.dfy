/**
 A worked session: two submissions into an empty store, a category filter,
 the simple export of the first record, and the deletion of that record.
 */
module Scenario {
  import opened Store
  import opened Filtering
  import opened Formatting

  const Contest: Entry := Entry("全国大学生数学建模竞赛", "竞赛", "国家级", "教育部", "")
  /** A submission that fills in only the title keeps the form's defaults: the first category, the empty level. */
  const TitleOnly: Entry := Entry("Cert X", Categories[0], Levels[0], "", "")

  /** The first record added to an empty store gets id 1, the second id 2. */
  lemma TwoSubmissions(t1: string, t2: string)
    ensures Add([], Contest, t1) == AddResult([NewRecord(1, Contest, t1)], Saved(1))
    ensures Add([NewRecord(1, Contest, t1)], TitleOnly, t2)
      == AddResult([NewRecord(1, Contest, t1), NewRecord(2, TitleOnly, t2)], Saved(2))
  {
    var one := NewRecord(1, Contest, t1);
    assert MaxId([one]) == 1;
  }

  /** Selecting the competition category keeps only the contest record. */
  lemma CompetitionView(one: Record, two: Record)
    requires one.category == "竞赛" && two.category == "荣誉"
    ensures Filter([one, two], "竞赛", All) == [one]
  {
    assert [one, two][1..] == [two];
    assert Where([two], CategoryIs("竞赛")) == [];
  }

  /** The simple export of the contest record is its title and its level in parentheses. */
  lemma ContestSimpleLine(t1: string)
    ensures SimpleText([NewRecord(1, Contest, t1)]) == "全国大学生数学建模竞赛 (国家级)\n"
  {
    SimpleTextSingle(NewRecord(1, Contest, t1));
  }

  /** Deleting id 1 leaves only the second record. */
  lemma DeleteFirst(one: Record, two: Record)
    requires one.id == 1 && two.id == 2
    ensures Delete([one, two], 1) == [two]
  {
    assert [one, two][1..] == [two];
    assert Where([two], IdIsNot(1)) == [two];
  }

  lemma ContestSession(t1: string, t2: string)
    ensures
      var first := Add([], Contest, t1);
      var second := Add(first.records, TitleOnly, t2);
      var one := NewRecord(1, Contest, t1);
      var two := NewRecord(2, TitleOnly, t2);
      && first.status == Saved(1)
      && second.status == Saved(2)
      && second.records == [one, two]
      && Filter(second.records, "竞赛", All) == [one]
      && SimpleText([one]) == "全国大学生数学建模竞赛 (国家级)\n"
      && Delete(second.records, 1) == [two]
  {
    var one := NewRecord(1, Contest, t1);
    var two := NewRecord(2, TitleOnly, t2);
    TwoSubmissions(t1, t2);
    CompetitionView(one, two);
    ContestSimpleLine(t1);
    DeleteFirst(one, two);
  }
}
