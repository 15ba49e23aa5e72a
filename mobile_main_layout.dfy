/** The mobile header options and how the mobile layout stores them
    (client/src/NavBar/MobileMainLayout.tsx, with the option record of
    client/src/NavBar/MobileHeaderContext.tsx). */
module MobileMainLayout {
  import opened Wrappers

  datatype LeftAction = Menu | Back | NoAction

  /** A React node or callback, compared by reference: two `Ref`s are the
      same object exactly when they are equal. */
  type Ref = int

  datatype StatusState = Public | Private

  datatype HeaderStatus = HeaderStatus(state: StatusState, labelNode: Ref)

  /** `MobileHeaderOptions`: every field is optional. */
  datatype HeaderOptions = HeaderOptions(
    leftAction: Option<LeftAction>,
    onBack: Option<Ref>,
    title: Option<Ref>,
    subtitle: Option<Ref>,
    status: Option<HeaderStatus>,
    rightExtras: Option<Ref>,
    hideAuthControl: Option<bool>,
    leadingIcon: Option<Ref>)

  /** `{leftAction: 'none'}`. */
  const DefaultHeaderOptions := HeaderOptions(Some(NoAction), None, None, None, None, None, None, None)

  function LeftActionOrNone(o: HeaderOptions): LeftAction {
    o.leftAction.GetOr(NoAction)
  }

  /** `!!hideAuthControl`. */
  predicate HidesAuth(o: HeaderOptions) {
    o.hideAuthControl == Some(true)
  }

  /** `areHeaderOptionsEqual`: field by field, with a missing `leftAction`
      read as `'none'`, `hideAuthControl` and the presence of `status`
      compared by truthiness, and a status compared by state and label. */
  predicate AreHeaderOptionsEqual(a: HeaderOptions, b: HeaderOptions) {
    if LeftActionOrNone(a) != LeftActionOrNone(b) then false
    else if a.onBack != b.onBack then false
    else if a.title != b.title then false
    else if a.subtitle != b.subtitle then false
    else if HidesAuth(a) != HidesAuth(b) then false
    else if a.status.Some? != b.status.Some? then false
    else if a.status.Some? && b.status.Some? && a.status.value.state != b.status.value.state then false
    else if a.status.Some? && b.status.Some? && a.status.value.labelNode != b.status.value.labelNode then false
    else if a.rightExtras != b.rightExtras then false
    else if a.leadingIcon != b.leadingIcon then false
    else true
  }

  /** The options as the comparison sees them: defaults filled in. */
  function Canonical(o: HeaderOptions): HeaderOptions {
    o.(leftAction := Some(LeftActionOrNone(o)), hideAuthControl := Some(HidesAuth(o)))
  }

  /** The comparison is equality of the canonical forms; so it is reflexive,
      symmetric and transitive. */
  lemma EqualIffSameCanonical(a: HeaderOptions, b: HeaderOptions)
    ensures AreHeaderOptionsEqual(a, b) <==> Canonical(a) == Canonical(b)
  {
    if Canonical(a) == Canonical(b) {
      assert Canonical(a).leftAction == Canonical(b).leftAction;
      assert Canonical(a).hideAuthControl == Canonical(b).hideAuthControl;
    }
  }

  lemma EqualIsEquivalence(a: HeaderOptions, b: HeaderOptions, c: HeaderOptions)
    ensures AreHeaderOptionsEqual(a, a)
    ensures AreHeaderOptionsEqual(a, b) ==> AreHeaderOptionsEqual(b, a)
    ensures AreHeaderOptionsEqual(a, b) && AreHeaderOptionsEqual(b, c) ==> AreHeaderOptionsEqual(a, c)
  {
    EqualIffSameCanonical(a, a);
    EqualIffSameCanonical(a, b);
    EqualIffSameCanonical(b, a);
    EqualIffSameCanonical(b, c);
    EqualIffSameCanonical(a, c);
  }

  /** A missing `leftAction` and `'none'` compare equal, and so do a missing
      and a false `hideAuthControl`. */
  lemma MissingMeansDefault(o: HeaderOptions)
    ensures AreHeaderOptionsEqual(o.(leftAction := None), o.(leftAction := Some(NoAction)))
    ensures AreHeaderOptionsEqual(o.(hideAuthControl := None), o.(hideAuthControl := Some(false)))
  {
  }

  /** `applyHeaderOptions`: the options with `leftAction` forced to
      `'none'`, unless they equal the stored ones, which are then kept as
      they are. */
  function ApplyHeaderOptions(prev: HeaderOptions, next: HeaderOptions): (r: HeaderOptions)
    ensures r.leftAction == Some(NoAction) || r == prev
    ensures AreHeaderOptionsEqual(r, next.(leftAction := Some(NoAction)))
    ensures AreHeaderOptionsEqual(prev, next.(leftAction := Some(NoAction))) ==> r == prev
    ensures !AreHeaderOptionsEqual(prev, next.(leftAction := Some(NoAction))) ==> r == next.(leftAction := Some(NoAction))
  {
    var normalized := next.(leftAction := Some(NoAction));
    EqualIsEquivalence(prev, normalized, prev);
    if AreHeaderOptionsEqual(prev, normalized) then prev else normalized
  }

  /** Applying the same options twice stores the same object as applying
      them once. */
  lemma ApplyIdempotent(prev: HeaderOptions, next: HeaderOptions)
    ensures ApplyHeaderOptions(ApplyHeaderOptions(prev, next), next) == ApplyHeaderOptions(prev, next)
  {
  }

  /** Whatever the options ask for, the stored left action reads as
      `'none'`. */
  lemma AppliedLeftActionIsNone(prev: HeaderOptions, next: HeaderOptions)
    ensures LeftActionOrNone(ApplyHeaderOptions(prev, next)) == NoAction
  {
  }

  /** `resetHeaderOptions`: back to the defaults, keeping the stored object
      when it already equals them. */
  function ResetHeaderOptions(prev: HeaderOptions): (r: HeaderOptions)
    ensures AreHeaderOptionsEqual(r, DefaultHeaderOptions)
    ensures AreHeaderOptionsEqual(prev, DefaultHeaderOptions) ==> r == prev
    ensures !AreHeaderOptionsEqual(prev, DefaultHeaderOptions) ==> r == DefaultHeaderOptions
  {
    if AreHeaderOptionsEqual(prev, DefaultHeaderOptions) then prev else DefaultHeaderOptions
  }

  /** A reset right after a reset changes nothing. */
  lemma ResetIdempotent(prev: HeaderOptions)
    ensures ResetHeaderOptions(ResetHeaderOptions(prev)) == ResetHeaderOptions(prev)
  {
  }
}
