/** The contact-form inbox of src/components/admin/FormManager.tsx: a list of
    submissions, a search over name and e-mail, a status filter, viewing
    (which marks a submission read) and a confirmed delete. The clock that
    stamps the mock submissions is a parameter: `now` in milliseconds. */
module Messages {
  import opened Values
  import Seqs
  import Text

  /** The three statuses the record type allows. */
  datatype Status = New | Read | Replied

  /** The status as the page writes it. */
  function Label(s: Status): string {
    match s
    case New => "new"
    case Read => "read"
    case Replied => "replied"
  }

  datatype Submission = Submission(
    id: int,
    name: string,
    email: string,
    phone: string,
    message: string,
    status: Status,
    createdAt: int)

  const DayMillis := 86400000

  /** The two mock submissions: one new, one already read a day earlier. */
  function MockSubmissions(now: int): (r: seq<Submission>)
    ensures |r| == 2 && r[0].id == 1 && r[1].id == 2
    ensures r[0].status == New && r[1].status == Read
  {
    [ Submission(1, "Sarah Ahmed", "sarah@example.com", "+92 300 1234567",
                 "I would like to know more about your premium cosmetics collection.",
                 New, now),
      Submission(2, "Ali Hassan", "ali@example.com", "+92 301 9876543",
                 "Do you offer bulk discounts for wholesale orders?",
                 Read, now - DayMillis) ]
  }

  // ---------------------------------------------------------------------------
  // Status badges

  const GrayClass := "bg-gray-100 text-gray-800"

  /** `getStatusColor`, which takes any string: gray exactly for a string
      that is no status's label. */
  function StatusColor(status: string): (r: string)
    ensures r == GrayClass <==> forall s: Status :: status != Label(s)
  {
    if status == Label(New) then "bg-blue-100 text-blue-800"
    else if status == Label(Read) then "bg-yellow-100 text-yellow-800"
    else if status == Label(Replied) then "bg-green-100 text-green-800"
    else GrayClass
  }

  /** The three statuses get three different colours, none of them gray;
      a string that is no status's label is gray. */
  lemma StatusColorsDistinct(a: Status, b: Status, other: string)
    requires forall s: Status :: other != Label(s)
    ensures StatusColor(Label(a)) != GrayClass
    ensures StatusColor(Label(a)) == StatusColor(Label(b)) <==> a == b
    ensures StatusColor(other) == GrayClass
  {
    assert other != Label(New) && other != Label(Read) && other != Label(Replied);
  }

  // ---------------------------------------------------------------------------
  // Filtering

  /** The search looks at the name and the e-mail address. */
  predicate SearchMatches(s: Submission, query: string) {
    Text.Matches(s.name, query) || Text.Matches(s.email, query)
  }

  predicate StatusMatches(s: Submission, statusFilter: string) {
    statusFilter == "all" || Label(s.status) == statusFilter
  }

  predicate Shows(s: Submission, query: string, statusFilter: string) {
    SearchMatches(s, query) && StatusMatches(s, statusFilter)
  }

  function ShowsFn(query: string, statusFilter: string): Submission -> bool {
    (s: Submission) => Shows(s, query, statusFilter)
  }

  /** `filteredSubmissions`. */
  function Filtered(subs: seq<Submission>, query: string, statusFilter: string): (r: seq<Submission>)
    ensures forall s :: s in r <==> s in subs && Shows(s, query, statusFilter)
    ensures Seqs.IsSubsequence(r, subs)
    ensures statusFilter != "all" ==> forall s :: s in r ==> Label(s.status) == statusFilter
  {
    Seqs.Filter(subs, ShowsFn(query, statusFilter))
  }

  /** An empty search with "all" lists every submission. */
  lemma {:induction false} EmptySearchShowsAll(subs: seq<Submission>)
    ensures Filtered(subs, "", "all") == subs
  {
    forall s | s in subs
      ensures Shows(s, "", "all")
    {
      Text.EmptyQueryMatches(Text.Lower(s.name));
    }
  }

  /** The phone number and the message play no part in the search. */
  lemma PhoneAndMessageNotSearched(s: Submission, phone: string, message: string, query: string, statusFilter: string)
    ensures Shows(s.(phone := phone, message := message), query, statusFilter) <==> Shows(s, query, statusFilter)
  {
  }

  // ---------------------------------------------------------------------------
  // Viewing and deleting

  /** One submission after the "mark as read" update for `id`. */
  function MarkIfId(id: int, s: Submission): Submission {
    if s.id == id then s.(status := Read) else s
  }

  /** The list after `handleView` marked submission `id` as read. */
  function MarkRead(subs: seq<Submission>, id: int): (r: seq<Submission>)
    ensures |r| == |subs|
    ensures forall i :: 0 <= i < |subs| && subs[i].id == id ==> r[i] == subs[i].(status := Read)
    ensures forall i :: 0 <= i < |subs| && subs[i].id != id ==> r[i] == subs[i]
  {
    seq(|subs|, i requires 0 <= i < |subs| => MarkIfId(id, subs[i]))
  }

  /** Viewing is idempotent and marks read whatever the status was, a
      replied submission included. */
  lemma MarkReadIdempotent(subs: seq<Submission>, id: int)
    ensures MarkRead(MarkRead(subs, id), id) == MarkRead(subs, id)
    ensures forall i :: 0 <= i < |subs| && subs[i].id == id ==> MarkRead(subs, id)[i].status == Read
  {
  }

  /** Viewing touches nothing but the status: ids, names, addresses, phones,
      messages and dates stay as they were. */
  lemma MarkReadKeepsContent(subs: seq<Submission>, id: int)
    ensures forall i :: 0 <= i < |subs| ==>
      MarkRead(subs, id)[i] == subs[i].(status := MarkRead(subs, id)[i].status)
  {
  }

  /** A replied submission that is viewed loses its "replied" status. */
  lemma ViewDemotesReplied(s: Submission)
    requires s.status == Replied
    ensures MarkRead([s], s.id)[0].status == Read
  {
  }

  function KeepOtherThan(id: int): Submission -> bool {
    (s: Submission) => s.id != id
  }

  /** `handleDelete`: the list without submission `id` when the admin
      confirms, and unchanged otherwise. */
  function Delete(subs: seq<Submission>, id: int, confirmed: bool): (r: seq<Submission>)
    ensures !confirmed ==> r == subs
    ensures confirmed ==> forall s :: s in r <==> s in subs && s.id != id
    ensures Seqs.IsSubsequence(r, subs)
  {
    if confirmed then Seqs.Filter(subs, KeepOtherThan(id))
    else Seqs.SubsequenceReflexive(subs); subs
  }

  /** A confirmed delete keeps every other submission, in order and with the
      same number of copies, and deleting again changes nothing. */
  lemma DeleteKeepsOthers(subs: seq<Submission>, id: int, s: Submission)
    ensures s.id != id ==> Seqs.Count(Delete(subs, id, true), s) == Seqs.Count(subs, s)
    ensures s.id == id ==> Seqs.Count(Delete(subs, id, true), s) == 0
    ensures Delete(Delete(subs, id, true), id, true) == Delete(subs, id, true)
  {
    Seqs.FilterCounts(subs, KeepOtherThan(id), s);
    Seqs.FilterIdempotent(subs, KeepOtherThan(id));
  }

  /** Marking read distributes over a concatenation. */
  lemma MarkReadAppend(a: seq<Submission>, b: seq<Submission>, id: int)
    ensures MarkRead(a + b, id) == MarkRead(a, id) + MarkRead(b, id)
  {
  }

  /** Viewing and deleting different submissions can be done in either order. */
  lemma {:induction false} ViewAndDeleteCommute(subs: seq<Submission>, viewed: int, deleted: int)
    requires viewed != deleted
    ensures Delete(MarkRead(subs, viewed), deleted, true) == MarkRead(Delete(subs, deleted, true), viewed)
    decreases |subs|
  {
    if |subs| > 0 {
      var keep := KeepOtherThan(deleted);
      var m := MarkIfId(viewed, subs[0]);
      var marked := MarkRead(subs, viewed);
      assert marked == [m] + MarkRead(subs[1..], viewed);
      assert marked[1..] == MarkRead(subs[1..], viewed);
      ViewAndDeleteCommute(subs[1..], viewed, deleted);
      var tail := Seqs.Filter(subs[1..], keep);
      if subs[0].id != deleted {
        assert Seqs.Filter(subs, keep) == [subs[0]] + tail;
        MarkReadAppend([subs[0]], tail, viewed);
      } else {
        assert Seqs.Filter(subs, keep) == tail;
      }
    }
  }

  // ---------------------------------------------------------------------------
  // The page's state

  datatype Inbox = Inbox(
    submissions: seq<Submission>,
    selected: Option<Submission>,
    detailOpen: bool)

  /** `handleView`: the dialog opens on the submission as it was clicked, and
      the list marks it read. */
  function View(b: Inbox, s: Submission): (r: Inbox)
    ensures r.selected == Some(s) && r.detailOpen
    ensures r.submissions == MarkRead(b.submissions, s.id)
  {
    Inbox(MarkRead(b.submissions, s.id), Some(s), true)
  }

  /** The dialog shows the status from before the view: a new submission
      appears as new there while the list already shows it read. */
  lemma DialogShowsStatusBeforeView(now: int)
    ensures var b := View(Inbox(MockSubmissions(now), None, false), MockSubmissions(now)[0]);
      b.selected.value.status == New && b.submissions[0].status == Read
  {
  }
}
