/**
 * The profile dialog (components/profile-modal.tsx): nothing without a user, the repeat-days
 * line (which sorts the passed array in place), the social links and the report dialog.
 */
module ProfileModal {
  import opened Wrappers
  import opened Js
  import opened Display

  /** The profile fields the dialog reads; a handle is `None` when the column is null. */
  datatype UserProfile = UserProfile(name: string, instagramHandle: Option<string>, twitterHandle: Option<string>)

  datatype Link = Link(url: string, text: string)

  datatype View = View(initials: string, links: seq<Link>, actions: seq<Action>)

  /** A handle renders only when it is truthy: present and not "". */
  predicate HasHandle(h: Option<string>) {
    h.Some? && h.value != ""
  }

  const InstagramPrefix := "https://instagram.com/"
  const TwitterPrefix := "https://twitter.com/"

  /** The social-links block: shown only when asked for, connected, and with some handle;
      then one link per truthy handle, Instagram first. */
  function SocialLinks(showSocialLinks: bool, status: ConnectionStatus,
                       instagram: Option<string>, twitter: Option<string>): (r: seq<Link>)
    ensures r != [] <==> showSocialLinks && status == Connected && (HasHandle(instagram) || HasHandle(twitter))
    ensures HasHandle(instagram) ==>
              (Link(InstagramPrefix + instagram.value, instagram.value) in r <==> showSocialLinks && status == Connected)
    ensures HasHandle(twitter) ==>
              (Link(TwitterPrefix + twitter.value, twitter.value) in r <==> showSocialLinks && status == Connected)
    ensures forall k :: 0 <= k < |r| ==>
              || (HasHandle(instagram) && r[k] == Link(InstagramPrefix + instagram.value, instagram.value))
              || (HasHandle(twitter) && r[k] == Link(TwitterPrefix + twitter.value, twitter.value))
    ensures |r| <= 2
  {
    if showSocialLinks && status == Connected && (HasHandle(instagram) || HasHandle(twitter)) then
      (if HasHandle(instagram) then [Link(InstagramPrefix + instagram.value, instagram.value)] else [])
      + (if HasHandle(twitter) then [Link(TwitterPrefix + twitter.value, twitter.value)] else [])
    else []
  }

  /** The dialog's content: nothing when `user` is null. */
  function ProfileView(user: Option<UserProfile>, status: ConnectionStatus, connecting: bool,
                       showSocialLinks: bool): (r: Option<View>)
    ensures r.None? <==> user.None?
    ensures r.Some? ==> (&& r.value.initials == Initials(user.value.name)
                         && r.value.links == SocialLinks(showSocialLinks, status, user.value.instagramHandle, user.value.twitterHandle)
                         && r.value.actions == StatusActions(status, connecting, "Request Pending"))
  {
    if user.None? then None
    else
      var u := user.value;
      Some(View(Initials(u.name), SocialLinks(showSocialLinks, status, u.instagramHandle, u.twitterHandle),
                StatusActions(status, connecting, "Request Pending")))
  }

  // ---------------------------------------------------------------- repeat days

  const WeekdayNames: seq<string> := ["Sun", "Mon", "Tue", "Wed", "Thu", "Fri", "Sat"]

  /** `WEEKDAY_NAMES[d]`; an index outside 0..6 is `undefined`, which `join` renders as "". */
  function WeekdayName(d: int): string {
    if 0 <= d < |WeekdayNames| then WeekdayNames[d] else ""
  }

  function DayNames(days: seq<int>): (r: seq<string>)
    ensures |r| == |days|
    ensures forall k :: 0 <= k < |days| ==> r[k] == WeekdayName(days[k])
  {
    if days == [] then [] else [WeekdayName(days[0])] + DayNames(days[1..])
  }

  ghost predicate Ascending(s: seq<int>) {
    forall i, j :: 0 <= i < j < |s| ==> s[i] <= s[j]
  }

  /** `.sort((a, b) => a - b)` on the array itself. */
  method SortDays(a: array<int>)
    modifies a
    ensures Ascending(a[..])
    ensures multiset(a[..]) == multiset(old(a[..]))
  {
    var i := 0;
    while i < a.Length
      invariant 0 <= i <= a.Length
      invariant forall p, q :: 0 <= p < q < i ==> a[p] <= a[q]
      invariant multiset(a[..]) == multiset(old(a[..]))
    {
      var j := i;
      while j > 0 && a[j - 1] > a[j]
        invariant 0 <= j <= i
        invariant forall p, q :: 0 <= p < q <= i && p != j && q != j ==> a[p] <= a[q]
        invariant forall q :: j < q <= i ==> a[j] < a[q]
        invariant multiset(a[..]) == multiset(old(a[..]))
      {
        a[j - 1], a[j] := a[j], a[j - 1];
        j := j - 1;
      }
      i := i + 1;
    }
  }

  /** The "Repeats:" line for a trip's details. It appears only for a repeating trip with a
      non-empty day list, and then the passed array is left sorted as a side effect. */
  method RepeatsLine(isRepeating: bool, repeatDays: array?<int>) returns (line: Option<string>)
    modifies repeatDays
    ensures !(isRepeating && repeatDays != null && repeatDays.Length > 0) ==> line.None?
    ensures repeatDays != null && !(isRepeating && repeatDays.Length > 0) ==> repeatDays[..] == old(repeatDays[..])
    ensures isRepeating && repeatDays != null && repeatDays.Length > 0 ==>
              && Ascending(repeatDays[..])
              && multiset(repeatDays[..]) == multiset(old(repeatDays[..]))
              && line == Some("Repeats: " + Join(DayNames(repeatDays[..]), ", "))
  {
    if isRepeating && repeatDays != null && repeatDays.Length > 0 {
      SortDays(repeatDays);
      line := Some("Repeats: " + Join(DayNames(repeatDays[..]), ", "));
    } else {
      line := None;
    }
  }

  /** Two ascending lists with the same elements are equal, so the line the dialog shows depends
      only on which days were chosen and not on the order they were stored in. */
  lemma {:induction false} AscendingUnique(a: seq<int>, b: seq<int>)
    requires Ascending(a) && Ascending(b) && multiset(a) == multiset(b)
    ensures a == b
  {
    if a == [] {
      assert |b| == |multiset(b)| == 0;
    } else {
      AscendingHeads(a, b);
      AscendingUnique(a[1..], b[1..]);
      assert a == [a[0]] + a[1..];
      assert b == [b[0]] + b[1..];
    }
  }

  /** Two non-empty ascending lists with the same elements start alike and go on alike. */
  lemma AscendingHeads(a: seq<int>, b: seq<int>)
    requires a != [] && Ascending(a) && Ascending(b) && multiset(a) == multiset(b)
    ensures b != [] && a[0] == b[0]
    ensures Ascending(a[1..]) && Ascending(b[1..]) && multiset(a[1..]) == multiset(b[1..])
  {
    assert |b| == |multiset(a)| > 0;
    AscendingHead(a, b[0]);
    AscendingHead(b, a[0]);
    HeadTail(a);
    HeadTail(b);
    assert a[0] == b[0];
    assert multiset(a[1..]) == multiset(a) - multiset{a[0]};
    assert multiset(b[1..]) == multiset(b) - multiset{b[0]};
  }

  /** The head of an ascending list is its least element. */
  lemma AscendingHead(s: seq<int>, x: int)
    requires Ascending(s) && x in multiset(s)
    ensures s[0] <= x
  {
    var k :| 0 <= k < |s| && s[k] == x;
    assert k == 0 || s[0] <= s[k];
  }

  lemma HeadTail(s: seq<int>)
    requires s != []
    ensures multiset(s) == multiset{s[0]} + multiset(s[1..])
    ensures Ascending(s) ==> Ascending(s[1..])
  {
    assert s == [s[0]] + s[1..];
  }

  /** Days stored as [5, 1, 3] are shown as "Repeats: Mon, Wed, Fri". */
  lemma RepeatsExample(sorted: seq<int>)
    requires Ascending(sorted) && multiset(sorted) == multiset([5, 1, 3])
    ensures "Repeats: " + Join(DayNames(sorted), ", ") == "Repeats: Mon, Wed, Fri"
  {
    SortedExample(sorted);
    DayNamesExample();
    MonWedFri();
  }

  lemma SortedExample(sorted: seq<int>)
    requires Ascending(sorted) && multiset(sorted) == multiset([5, 1, 3])
    ensures sorted == [1, 3, 5]
  {
    assert multiset([5, 1, 3]) == multiset([1, 3, 5]);
    AscendingUnique(sorted, [1, 3, 5]);
  }

  lemma DayNamesExample()
    ensures DayNames([1, 3, 5]) == [WeekdayName(1), WeekdayName(3), WeekdayName(5)]
  {
  }

  lemma MonWedFri()
    ensures "Repeats: " + Join([WeekdayName(1), WeekdayName(3), WeekdayName(5)], ", ") == "Repeats: Mon, Wed, Fri"
  {
    JoinThree("Mon", "Wed", "Fri");
  }

  lemma JoinThree(x: string, y: string, z: string)
    ensures Join([x, y, z], ", ") == x + ", " + y + ", " + z
  {
    assert [x, y, z][1..] == [y, z];
    assert [y, z][1..] == [z];
    assert Join([z], ", ") == z;
    assert Join([y, z], ", ") == y + ", " + z;
  }

  // ---------------------------------------------------------------- report dialog

  datatype ModalEvent = ReportDialogHidden | ReportCallback

  /** `reportOpen` and the observable effects of closing the report dialog, in order. */
  class ReportState {
    var reportOpen: bool
    var events: seq<ModalEvent>

    constructor()
      ensures !reportOpen && events == []
    {
      reportOpen := false;
      events := [];
    }

    method HandleReport()
      modifies this
      ensures reportOpen && events == old(events)
    {
      reportOpen := true;
    }

    /** `handleReportClose`: hide the dialog, then call `onReport` when it was passed. */
    method HandleReportClose(hasOnReport: bool)
      modifies this
      ensures !reportOpen
      ensures events == old(events) + [ReportDialogHidden] + (if hasOnReport then [ReportCallback] else [])
    {
      reportOpen := false;
      events := events + [ReportDialogHidden];
      if hasOnReport {
        events := events + [ReportCallback];
      }
    }
  }
}
