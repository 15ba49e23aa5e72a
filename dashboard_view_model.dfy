/** The state behind the dashboard page: the user's results, the selected
    row and the error banner
    (client/src/Pages/Dashboard/useDashboardViewModel.ts). */
module DashboardViewModel {
  import opened Wrappers
  import opened Strings
  import opened Interfaces
  import opened TableHelpers

  /** The selected row; `isShared` is the field that a share-status update
      spreads into it. */
  datatype SelectedRow = SelectedRow(row: Data, isShared: Option<bool>)

  const LoggedOutMessage := "You must be " + "logged in" + " to view your results."
  const LoadFailedMessage := "Unable to load your results. Please try again."

  /** A string that JavaScript reads as true. */
  predicate Present(s: Option<string>) {
    s.Some? && s.value != []
  }

  /** `canRetry`: both identifiers of the signed-in user are truthy. */
  predicate CanRetry(hashedIdentifier: Option<string>, authedId: Option<string>) {
    Present(hashedIdentifier) && Present(authedId)
  }

  /** `errorTitle`: none without an error; an authentication error exactly
      when the lower-cased message mentions being logged in. */
  function ErrorTitle(error: Option<string>): (r: Option<string>)
    ensures r.None? <==> !Present(error)
    ensures r == Some("Authentication Error") <==> Present(error) && Contains(Lower(error.value), "logged in")
    ensures r.Some? ==> r.value in {"Authentication Error", "Unable to Load Results"}
  {
    if !Present(error) then None
    else if Contains(Lower(error.value), "logged in") then Some("Authentication Error")
    else Some("Unable to Load Results")
  }

  /** The message set for a 401, and so by the logged-out reset, is titled
      as an authentication error. */
  lemma LoggedOutTitle()
    ensures ErrorTitle(Some(LoggedOutMessage)) == Some("Authentication Error")
  {
    MentionIsAuthentication("You must be ", " to view your results.");
  }

  /** Any message that mentions being logged in is titled as an
      authentication error. */
  lemma MentionIsAuthentication(head: string, tail: string)
    ensures ErrorTitle(Some(head + "logged in" + tail)) == Some("Authentication Error")
  {
    var key := "logged in";
    var lowered := Lower(head + key + tail);
    assert lowered == Lower(head) + key + Lower(tail) by {
      LowerConcat(head + key, tail);
      LowerConcat(head, key);
      LowerOfKey();
    }
    FactorOfMiddle(Lower(head), key, Lower(tail));
  }

  lemma LowerOfKey()
    ensures Lower("logged in") == "logged in"
  {
    LowerOfNoUpper("logged in");
  }

  lemma LowerOfNoUpper(s: string)
    requires forall i :: 0 <= i < |s| ==> !IsUpper(s[i])
    ensures Lower(s) == s
  {
    assert forall i :: 0 <= i < |s| ==> Lower(s)[i] == s[i];
  }

  lemma FactorOfMiddle(a: string, b: string, c: string)
    ensures FactorAt(a + b + c, |a|, b)
  {
    assert (a + b + c)[|a|..|a| + |b|] == b;
  }

  lemma LowerConcat(a: string, b: string)
    ensures Lower(a + b) == Lower(a) + Lower(b)
  {
  }

  /** The error that `onError` stores. */
  function LoadErrorMessage(unauthorized: bool): string {
    if unauthorized then LoggedOutMessage else LoadFailedMessage
  }

  /** The list update of `updateResultShareStatus`: every result carrying
      `uid` takes the new share flag; nothing else changes. */
  function WithShareStatus(results: seq<Result<Account>>, uid: string, share: bool): (r: seq<Result<Account>>)
    ensures |r| == |results|
    ensures forall i :: 0 <= i < |r| ==>
      r[i] == (if results[i].uid == uid then results[i].(isShared := share) else results[i])
  {
    seq(|results|, i requires 0 <= i < |results| =>
      if results[i].uid == uid then results[i].(isShared := share) else results[i])
  }

  /** Applying an update twice is applying it once, and the flag of every
      matching result is the new one. */
  lemma WithShareStatusSettles(results: seq<Result<Account>>, uid: string, share: bool)
    ensures WithShareStatus(WithShareStatus(results, uid, share), uid, share) == WithShareStatus(results, uid, share)
    ensures forall i :: 0 <= i < |results| && results[i].uid == uid ==> WithShareStatus(results, uid, share)[i].isShared == share
  {
  }

  /** The selection update of `updateResultShareStatus`. */
  function SelectedWithShareStatus(selected: Option<SelectedRow>, uid: string, share: bool): (r: Option<SelectedRow>)
    ensures selected.None? || selected.value.row.uid != uid ==> r == selected
    ensures selected.Some? && selected.value.row.uid == uid ==> r == Some(selected.value.(isShared := Some(share)))
  {
    if selected.None? || selected.value.row.uid != uid then selected
    else Some(selected.value.(isShared := Some(share)))
  }

  /** The hook's state.  `refreshes` counts the reloads requested of the
      results loader, which is not part of this model. */
  class ViewModel {
    var results: seq<Result<Account>>
    var selectedResult: Option<SelectedRow>
    var error: Option<string>
    var refreshes: nat

    constructor()
      ensures results == [] && selectedResult.None? && error.None? && refreshes == 0
    {
      results := [];
      selectedResult := None;
      error := None;
      refreshes := 0;
    }

    /** The effect that runs when the user changes: nothing while the user
        is loading; a signed-out user gets no results and the log-in
        error; otherwise the error is cleared and a reload requested. */
    method UserChanged(isUserLoading: bool, hashedIdentifier: Option<string>, authedId: Option<string>)
      modifies this
      ensures isUserLoading ==> results == old(results) && error == old(error) && refreshes == old(refreshes)
      ensures !isUserLoading && !CanRetry(hashedIdentifier, authedId) ==>
        results == [] && error == Some(LoggedOutMessage) && refreshes == old(refreshes)
      ensures !isUserLoading && CanRetry(hashedIdentifier, authedId) ==>
        results == old(results) && error.None? && refreshes == old(refreshes) + 1
      ensures selectedResult == old(selectedResult)
    {
      if isUserLoading {
        return;
      }
      if !CanRetry(hashedIdentifier, authedId) {
        results := [];
        error := Some(LoggedOutMessage);
        return;
      }
      error := None;
      refreshes := refreshes + 1;
    }

    /** `onError` of the results loader. */
    method LoadFailed(unauthorized: bool)
      modifies this
      ensures error == Some(LoadErrorMessage(unauthorized))
      ensures results == old(results) && selectedResult == old(selectedResult) && refreshes == old(refreshes)
    {
      error := Some(LoadErrorMessage(unauthorized));
    }

    /** `handleRetry`: does nothing unless a retry is possible. */
    method HandleRetry(hashedIdentifier: Option<string>, authedId: Option<string>)
      modifies this
      ensures !CanRetry(hashedIdentifier, authedId) ==> error == old(error) && refreshes == old(refreshes)
      ensures CanRetry(hashedIdentifier, authedId) ==> error.None? && refreshes == old(refreshes) + 1
      ensures results == old(results) && selectedResult == old(selectedResult)
    {
      if !CanRetry(hashedIdentifier, authedId) {
        return;
      }
      error := None;
      refreshes := refreshes + 1;
    }

    method SelectResult(row: Data)
      modifies this
      ensures selectedResult == Some(SelectedRow(row, None))
      ensures results == old(results) && error == old(error) && refreshes == old(refreshes)
    {
      selectedResult := Some(SelectedRow(row, None));
    }

    method ClearSelection()
      modifies this
      ensures selectedResult.None?
      ensures results == old(results) && error == old(error) && refreshes == old(refreshes)
    {
      selectedResult := None;
    }

    /** `updateResultShareStatus`. */
    method UpdateResultShareStatus(uid: string, share: bool)
      modifies this
      ensures results == WithShareStatus(old(results), uid, share)
      ensures selectedResult == SelectedWithShareStatus(old(selectedResult), uid, share)
      ensures error == old(error) && refreshes == old(refreshes)
    {
      results := WithShareStatus(results, uid, share);
      selectedResult := SelectedWithShareStatus(selectedResult, uid, share);
    }
  }
}
