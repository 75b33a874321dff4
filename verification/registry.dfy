/** The static operation registry and the two validators that consult the
    user's flags against fixed allow-lists: the action lookup (case-insensitive,
    against the registry names) and the interval check (exact, against two
    literals). */
module Registry {
  import opened Text

  /** One callable endpoint: name, URL, HTTP method and a human description. */
  datatype ApiRequest = ApiRequest(name: string, url: string, httpMethod: string, description: string)

  /** The registry as shipped; every other entry in the source is commented out. */
  const ApiRequests: seq<ApiRequest> := [
    ApiRequest("GetDevices", "https://api.ui.com/v1/devices", "GET", "Fetches devices from the Unifi API"),
    ApiRequest("GetSites", "https://api.ui.com/v1/sites", "GET", "Fetches sites from the Unifi API")
  ]

  /** The supported values of the interval flag. */
  const TimeIntervals: seq<string> := ["5m", "1h"]

  /** An action selects an entry when both fold to the same lower-case string. */
  predicate NameMatches(r: ApiRequest, action: string)
  {
    ToLower(r.name) == ToLower(action)
  }

  /** No two entries share a name once case is folded. */
  predicate UniqueFoldedNames(reqs: seq<ApiRequest>)
  {
    forall i, j :: 0 <= i < j < |reqs| ==> ToLower(reqs[i].name) != ToLower(reqs[j].name)
  }

  /** `checkAction`: scan the registry and accept as soon as a name matches. */
  function CheckAction(reqs: seq<ApiRequest>, action: string): (ok: bool)
    ensures ok <==> exists i :: 0 <= i < |reqs| && NameMatches(reqs[i], action)
  {
    if |reqs| == 0 then false
    else if NameMatches(reqs[0], action) then true
    else
      var rest := CheckAction(reqs[1..], action);
      assert forall i :: 1 <= i < |reqs| ==> reqs[i] == reqs[1..][i - 1];
      rest
  }

  /** The index search of `main`: the first matching position, or -1. */
  function FindApiIndex(reqs: seq<ApiRequest>, action: string): (idx: int)
    ensures -1 <= idx < |reqs|
    ensures idx == -1 <==> forall i :: 0 <= i < |reqs| ==> !NameMatches(reqs[i], action)
    ensures 0 <= idx ==> NameMatches(reqs[idx], action)
    ensures 0 <= idx ==> forall j :: 0 <= j < idx ==> !NameMatches(reqs[j], action)
  {
    if |reqs| == 0 then -1
    else if NameMatches(reqs[0], action) then 0
    else
      var k := FindApiIndex(reqs[1..], action);
      assert forall i :: 1 <= i < |reqs| ==> reqs[i] == reqs[1..][i - 1];
      if k == -1 then -1 else k + 1
  }

  /** Whenever the action lookup accepts, the index search finds an entry, so
      the "not found" exit after the search cannot be taken. */
  lemma AcceptedActionIsFound(reqs: seq<ApiRequest>, action: string)
    ensures CheckAction(reqs, action) <==> FindApiIndex(reqs, action) != -1
  {
  }

  /** With case-insensitively unique names, the found index is the only match. */
  lemma FoundIndexIsOnlyMatch(reqs: seq<ApiRequest>, action: string, i: int)
    requires UniqueFoldedNames(reqs)
    requires 0 <= i < |reqs| && NameMatches(reqs[i], action)
    ensures FindApiIndex(reqs, action) == i
  {
  }

  /** The action lookup ignores letter case: any re-casing of the action gets
      the same answer. */
  lemma CheckActionIgnoresCase(reqs: seq<ApiRequest>, action: string, upper: set<nat>)
    ensures CheckAction(reqs, Recase(action, upper)) == CheckAction(reqs, action)
  {
    RecaseFoldsAlike(action, upper);
  }

  /** Every registered name is accepted in every letter casing. */
  lemma RegisteredNamesAccepted(reqs: seq<ApiRequest>, i: int, upper: set<nat>)
    requires 0 <= i < |reqs|
    ensures CheckAction(reqs, Recase(reqs[i].name, upper))
  {
    RecaseFoldsAlike(reqs[i].name, upper);
    assert NameMatches(reqs[i], Recase(reqs[i].name, upper));
  }

  /** The loop of `checkInterval`: exact membership in a list. */
  function Contains(list: seq<string>, s: string): (ok: bool)
    ensures ok <==> s in list
  {
    if |list| == 0 then false
    else if list[0] == s then true
    else
      var rest := Contains(list[1..], s);
      assert list == [list[0]] + list[1..];
      rest
  }

  /** `checkInterval`: exactly "5m" and "1h" pass; the comparison is
      case-sensitive and nothing is trimmed or normalised. */
  function CheckInterval(interval: string): (ok: bool)
    ensures ok <==> interval == "5m" || interval == "1h"
  {
    Contains(TimeIntervals, interval)
  }

  lemma FoldGetDevices()
    ensures ToLower("GetDevices") == "getdevices"
  {
    var t := ToLower("GetDevices");
    assert t[0] == 'g' && t[1] == 'e' && t[2] == 't' && t[3] == 'd' && t[4] == 'e';
    assert t[5] == 'v' && t[6] == 'i' && t[7] == 'c' && t[8] == 'e' && t[9] == 's';
  }

  lemma FoldGetSites()
    ensures ToLower("GetSites") == "getsites"
  {
    var t := ToLower("GetSites");
    assert t[0] == 'g' && t[1] == 'e' && t[2] == 't' && t[3] == 's';
    assert t[4] == 'i' && t[5] == 't' && t[6] == 'e' && t[7] == 's';
  }

  /** The shipped names fold to the two strings the result switch tests. */
  lemma ShippedNamesFold()
    ensures ToLower(ApiRequests[0].name) == "getdevices"
    ensures ToLower(ApiRequests[1].name) == "getsites"
  {
    FoldGetDevices();
    FoldGetSites();
  }

  lemma ShippedNamesUnique()
    ensures UniqueFoldedNames(ApiRequests)
  {
    ShippedNamesFold();
    assert "getdevices"[3] != "getsites"[3];
  }
}
