/** The dashboard's client-side rules: the file selection gate and index
    removal, the submit guard, the stat-card filter, which admin actions a
    status offers, how the tracking card normalises a status, and the
    value of the Open card. */
module Dashboard {
  import opened Common
  import opened Text
  import opened Users
  import opened GrievanceModel
  import opened Query

  /** The most files one selection may hold. */
  const MaxFiles := 5
  const TooManyFiles := "Maximum 5 files allowed"

  // ---------------------------------------------------------------------
  // removeFile: prev.filter((_, i) => i !== index)

  /** The elements of `s` whose position, counted from `start`, is not
      `index`. */
  function KeepOthers<T>(s: seq<T>, index: int, start: int): (r: seq<T>)
    ensures start <= index < start + |s| ==> r == s[..index - start] + s[index - start + 1..]
    ensures !(start <= index < start + |s|) ==> r == s
  {
    if |s| == 0 then []
    else
      var rest := KeepOthers(s[1..], index, start + 1);
      if start == index then
        assert rest == s[1..];
        rest
      else
        var d := index - start;
        assert 0 < d < |s| ==> rest == s[1..d] + s[d + 1..] && [s[0]] + s[1..d] == s[..d];
        assert !(0 < d < |s|) ==> rest == s[1..] && [s[0]] + s[1..] == s;
        [s[0]] + rest
  }

  /** `removeFile(index)`: an index inside the selection removes exactly
      that file and keeps the others in order; any other index removes
      nothing. */
  function RemoveAt<T>(s: seq<T>, index: int): (r: seq<T>)
    ensures 0 <= index < |s| ==> |r| == |s| - 1
    ensures 0 <= index < |s| ==> forall i :: 0 <= i < |r| ==> r[i] == if i < index then s[i] else s[i + 1]
    ensures !(0 <= index < |s|) ==> r == s
  {
    KeepOthers(s, index, 0)
  }

  // ---------------------------------------------------------------------
  // Statuses as the client sees them. A status field that is missing,
  // null or the empty string is falsy in `g.status || ...`.

  predicate Truthy(s: Option<string>) {
    s.Some? && s.value != ""
  }

  /** `(grievance?.status || 'open').toLowerCase()`. */
  function TrackingStatus(s: Option<string>): (r: string)
    ensures r != ""
    ensures !Truthy(s) ==> r == "open"
    ensures Truthy(s) ==> r == Lower(s.value)
  {
    var r := Lower(if Truthy(s) then s.value else "open");
    assert Lower("open") == "open";
    r
  }

  /** The four stages the timeline can show. */
  datatype Stage = OpenStage | PendingStage | ResolvedStage | RejectedStage

  /** `statusInfo[normalized] || statusInfo.open`. */
  function TimelineStage(normalized: string): (st: Stage)
    ensures st == PendingStage <==> normalized == "pending"
    ensures st == ResolvedStage <==> normalized == "resolved"
    ensures st == RejectedStage <==> normalized == "rejected"
    ensures st == OpenStage <==> normalized !in {"pending", "resolved", "rejected"}
  {
    if normalized == "open" then OpenStage
    else if normalized == "pending" then PendingStage
    else if normalized == "resolved" then ResolvedStage
    else if normalized == "rejected" then RejectedStage
    else OpenStage
  }

  /** The admin buttons a grievance card offers. */
  datatype Actions = Actions(resolveAndReject: bool, reopen: bool)

  /** Resolve and Reject for a falsy status or open/pending in any case;
      Re-open for resolved/rejected in any case. */
  function AdminActions(s: Option<string>): (a: Actions)
    ensures a.resolveAndReject <==> !Truthy(s) || Lower(s.value) == "open" || Lower(s.value) == "pending"
    ensures a.reopen <==> Truthy(s) && (Lower(s.value) == "resolved" || Lower(s.value) == "rejected")
  {
    var lower := if Truthy(s) then Lower(s.value) else "";
    Actions(!Truthy(s) || lower == "open" || lower == "pending", Truthy(s) && (lower == "resolved" || lower == "rejected"))
  }

  /** The two sets of actions are never offered together, and a status
      outside the four known values gets neither. */
  lemma ActionsExclusive(s: Option<string>)
    ensures !(AdminActions(s).resolveAndReject && AdminActions(s).reopen)
    ensures Truthy(s) && Lower(s.value) !in {"open", "pending", "resolved", "rejected"} ==>
      !AdminActions(s).resolveAndReject && !AdminActions(s).reopen
  {
  }

  /** For a known status the buttons agree with the tracking timeline:
      Resolve/Reject while the timeline shows open or pending, Re-open once
      it shows resolved or rejected. */
  lemma ActionsMatchTimeline(s: Option<string>)
    requires TrackingStatus(s) in {"open", "pending", "resolved", "rejected"}
    ensures AdminActions(s).resolveAndReject <==> TimelineStage(TrackingStatus(s)) in {OpenStage, PendingStage}
    ensures AdminActions(s).reopen <==> TimelineStage(TrackingStatus(s)) in {ResolvedStage, RejectedStage}
  {
  }

  // ---------------------------------------------------------------------
  // The Open stat card

  /** `stats.byStatus?.open ?? stats.byStatus?.pending ?? <local count>`,
      where the local count is over the list currently shown. */
  function OpenCard(byStatus: map<string, nat>, shown: seq<Grievance>): (n: nat)
    ensures "open" in byStatus ==> n == byStatus["open"]
    ensures "open" !in byStatus && "pending" in byStatus ==> n == byStatus["pending"]
    ensures "open" !in byStatus && "pending" !in byStatus ==>
      n == Count(shown, (g: Grievance) => TrackingStatus(g.status) == "open" || TrackingStatus(g.status) == "pending")
  {
    if "open" in byStatus then byStatus["open"]
    else if "pending" in byStatus then byStatus["pending"]
    else Count(shown, (g: Grievance) => TrackingStatus(g.status) == "open" || TrackingStatus(g.status) == "pending")
  }

  function CountUnder(byStatus: map<string, nat>, key: string): nat {
    if key in byStatus then byStatus[key] else 0
  }

  /** The Open card as its fallbacks suggest it was meant: open and
      pending together, which is what clicking it lists. */
  function OpenCardCorrected(byStatus: map<string, nat>): (n: nat)
    ensures n >= CountUnder(byStatus, "open") && n >= CountUnder(byStatus, "pending")
  {
    CountUnder(byStatus, "open") + CountUnder(byStatus, "pending")
  }

  lemma TrimOpen()
    ensures Trim("open") == "open"
  {
    var s := "open";
    assert !IsSpace(s[0]) && !IsSpace(s[3]);
    assert SpaceRunEnd(s, 0) == 0;
    assert SpaceRunStart(s, 0, 4) == 4;
    assert s[0..4] == s;
  }

  lemma LowerOpen()
    ensures Lower("open") == "open"
  {
    assert Lower("open")[0] == 'o';
  }

  /** `?status=open` parses to the single token `open`. */
  lemma OpenTokens()
    ensures StatusTokens("open") == ["open"]
  {
    SplitPlain("open", ',');
    TrimOpen();
    LowerOpen();
    var parts := ["open"];
    assert CleanTokens(parts[1..]) == [] by {
      assert parts[1..] == [];
    }
  }

  /** Listing with `open` selects exactly the visible records counted
      under `open` or under `pending` by the stats route. */
  lemma OpenListIsOpenOrPendingKey(caller: UserView, g: Grievance)
    ensures Selected(caller, "open", g) <==>
      Visible(caller, g) && (StatsKey(g.status) == "open" || StatsKey(g.status) == "pending")
  {
    OpenTokens();
    LowerOpen();
    var tokens := StatusTokens("open");
    assert "open" in tokens;
    if g.status.None? {
      assert StatsKey(g.status) == "open";
    } else {
      assert StatsKey(g.status) == Lower(g.status.value);
      assert Lower(g.status.value) in tokens <==> Lower(g.status.value) == "open";
    }
  }

  /** The card's read of `byStatus[key]` is the number of visible records
      normalised to `key`; under `__proto__` it always reads nothing. */
  lemma CountUnderStats(records: seq<Grievance>, caller: UserView, key: string)
    ensures key != ProtoKey ==>
      CountUnder(Stats(records, caller).byStatus, key)
        == Count(records, (g: Grievance) => Visible(caller, g) && StatsKey(g.status) == key)
    ensures CountUnder(Stats(records, caller).byStatus, ProtoKey) == 0
  {
    var m := Stats(records, caller).byStatus;
    if key !in m && key != ProtoKey {
      CountNone(records, (g: Grievance) => Visible(caller, g) && StatsKey(g.status) == key);
    }
  }

  /** The corrected card shows the total the Open filter lists. */
  lemma OpenCardCorrectedMatchesList(records: seq<Grievance>, caller: UserView)
    ensures OpenCardCorrected(Stats(records, caller).byStatus) == |MatchingRecords(records, caller, "open")|
  {
    var p := (g: Grievance) => Visible(caller, g) && StatsKey(g.status) == "open";
    var q := (g: Grievance) => Visible(caller, g) && StatsKey(g.status) == "pending";
    var pq := (g: Grievance) => Selected(caller, "open", g);
    forall g ensures pq(g) == (p(g) || q(g)) {
      OpenListIsOpenOrPendingKey(caller, g);
    }
    CountDisjointUnion(records, p, q, pq);
    MatchingCount(records, caller, "open");
    CountUnderStats(records, caller, "open");
    CountUnderStats(records, caller, "pending");
  }

  /** As written, the card undercounts as soon as a visible record is
      `open` and another is `pending`: it shows the open count only, while
      clicking it lists both. */
  lemma OpenCardUndercounts(records: seq<Grievance>, caller: UserView, shown: seq<Grievance>, i: nat, j: nat)
    requires i < |records| && j < |records|
    requires Visible(caller, records[i]) && StatsKey(records[i].status) == "open"
    requires Visible(caller, records[j]) && StatsKey(records[j].status) == "pending"
    ensures OpenCard(Stats(records, caller).byStatus, shown) < |MatchingRecords(records, caller, "open")|
  {
    var m := Stats(records, caller).byStatus;
    assert "open" in m && "pending" in m;
    OpenCardCorrectedMatchesList(records, caller);
    assert m["pending"] > 0;
  }

  // ---------------------------------------------------------------------
  // Component state

  /** A request to the list route: `{ limit: 20, page: 1 }` plus the
      status when one is given. */
  datatype ListRequest = ListRequest(status: Option<string>, page: nat, limit: nat)

  /** The body of a create request. */
  datatype Submission<F> = Submission(title: string, description: string, files: seq<F>)

  /** The dashboard state the handlers change, over some type of file
      handles. */
  class DashboardState<F> {
    var title: string
    var desc: string
    var selectedFiles: seq<F>
    var activeFilter: string
    var alerts: seq<string>

    constructor ()
      ensures title == "" && desc == "" && selectedFiles == [] && activeFilter == "" && alerts == []
    {
      title := "";
      desc := "";
      selectedFiles := [];
      activeFilter := "";
      alerts := [];
    }

    /** `handleFileChange`: more than five files leaves the selection as it
        was and alerts; five or fewer replace it. */
    method HandleFileChange(files: seq<F>)
      modifies this
      ensures |files| > MaxFiles ==> selectedFiles == old(selectedFiles) && alerts == old(alerts) + [TooManyFiles]
      ensures |files| <= MaxFiles ==> selectedFiles == files && alerts == old(alerts)
      ensures |selectedFiles| <= MaxFiles || selectedFiles == old(selectedFiles)
      ensures title == old(title) && desc == old(desc) && activeFilter == old(activeFilter)
    {
      if |files| > MaxFiles {
        alerts := alerts + [TooManyFiles];
        return;
      }
      selectedFiles := files;
    }

    /** `removeFile`. */
    method RemoveFile(index: int)
      modifies this
      ensures selectedFiles == RemoveAt(old(selectedFiles), index)
      ensures title == old(title) && desc == old(desc) && activeFilter == old(activeFilter) && alerts == old(alerts)
    {
      selectedFiles := RemoveAt(selectedFiles, index);
    }

    /** `submit`: nothing is sent while the title or the description is
        empty; otherwise both and the selected files are. */
    method Submit() returns (request: Option<Submission<F>>)
      ensures title == "" || desc == "" ==> request.None?
      ensures title != "" && desc != "" ==> request == Some(Submission(title, desc, selectedFiles))
    {
      if title == "" || desc == "" {
        return None;
      }
      request := Some(Submission(title, desc, selectedFiles));
    }

    /** The success handler of a create: the form is cleared. */
    method Submitted()
      modifies this
      ensures title == "" && desc == "" && selectedFiles == []
      ensures activeFilter == old(activeFilter) && alerts == old(alerts)
    {
      title := "";
      desc := "";
      selectedFiles := [];
    }

    /** `handleFilter(label)`: `Total`, in any case, clears the filter and
        lists everything; any other label, lowercased, becomes both the
        active filter and the status asked for, except that an empty
        status is not sent at all. */
    method HandleFilter(cardLabel: string) returns (request: ListRequest)
      modifies this
      ensures Lower(cardLabel) == "total" ==> activeFilter == "" && request == ListRequest(None, 1, 20)
      ensures Lower(cardLabel) != "total" ==> activeFilter == Lower(cardLabel)
      ensures Lower(cardLabel) != "total" && cardLabel != "" ==> request == ListRequest(Some(Lower(cardLabel)), 1, 20)
      ensures cardLabel == "" ==> request == ListRequest(None, 1, 20)
      ensures title == old(title) && desc == old(desc) && selectedFiles == old(selectedFiles) && alerts == old(alerts)
    {
      var key := Lower(cardLabel);
      if key == "total" {
        activeFilter := "";
        request := ListRequest(None, 1, 20);
      } else {
        var statusParam := if key == "open" then "open" else key;
        activeFilter := key;
        request := ListRequest(if statusParam == "" then None else Some(statusParam), 1, 20);
      }
    }
  }
}
