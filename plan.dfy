/** Sort orders, the fetch plan chosen by step 4 of amazon.js, and the two
    numeric constants of the fetch. */
module Plan {

  datatype Direction = Ascending | Descending
  datatype SortField = Date | Title | Author

  /** A (direction, field) pair: the `sortOrder` and `sortIndex` of a request. */
  datatype SortOrder = SortOrder(direction: Direction, field: SortField)

  /** The page size `bs` of step 4. */
  const BatchSize: nat := 50

  /** The endpoint refuses offsets at or past this record count. */
  const Ceiling: nat := 1000

  /** The fetch plan: newest first only with `-latest`; otherwise both
      directions of date, then of title, then of author. */
  function FetchPlan(latest: bool): (p: seq<SortOrder>)
    ensures |p| == if latest then 1 else 6
    ensures p[0] == SortOrder(Descending, Date)
    ensures !latest ==> forall i :: 0 <= i < |p| ==>
              p[i].field == [Date, Title, Author][i / 2] &&
              p[i].direction == (if i % 2 == 0 then Descending else Ascending)
  {
    if latest then [SortOrder(Descending, Date)]
    else [SortOrder(Descending, Date), SortOrder(Ascending, Date),
          SortOrder(Descending, Title), SortOrder(Ascending, Title),
          SortOrder(Descending, Author), SortOrder(Ascending, Author)]
  }

  /** The full plan visits every sort order the endpoint offers, each once,
      and the `-latest` plan is its first element. */
  lemma FullPlanCoversEveryOrder()
    ensures forall o: SortOrder {:trigger o in FetchPlan(false)} :: o in FetchPlan(false)
    ensures forall i, j :: 0 <= i < j < |FetchPlan(false)| ==> FetchPlan(false)[i] != FetchPlan(false)[j]
    ensures FetchPlan(true) == FetchPlan(false)[..1]
  {
    var p := FetchPlan(false);
    forall o: SortOrder ensures o in p {
      var i := (match o.field case Date => 0 case Title => 2 case Author => 4)
               + (if o.direction == Descending then 0 else 1);
      assert p[i] == o;
    }
  }
}
