/**
 Status conditions, as the operator uses them: a named condition is True, False with a
 reason and a severity, or Unknown. A condition that was never set reads as Unknown.
 */
module Conditions {

  datatype Option<+T> = None | Some(value: T)

  datatype Reason = Requested | ErrorOccurred | BackoffLimitExceeded | OtherReason

  datatype Severity = Info | Warning | Error

  datatype Condition = Unknown | False(reason: Reason, severity: Severity) | True

  /** The types the controllers use, and the type of one service, by its full name. */
  datatype ConditionType =
    | ReadyCondition | DeploymentReadyCondition | InputReadyCondition | SetupReadyCondition
    | NodeSetDeploymentReadyCondition | NodeSetIPReservationReadyCondition | NodeSetDNSDataReadyCondition
    | ServiceAccountReadyCondition | NodeSetBareMetalProvisionReadyCondition
    | ServiceCondition(name: string)

  type Conditions = map<ConditionType, Condition>

  const REQUESTED := False(Requested, Info)
  const FAILED := False(ErrorOccurred, Error)

  function Get(cs: Conditions, t: ConditionType): Condition {
    if t in cs then cs[t] else Unknown
  }

  predicate IsTrue(cs: Conditions, t: ConditionType) {
    Get(cs, t).True?
  }

  /** A condition counts as an error when it is False with severity Error. */
  predicate IsError(c: Condition) {
    c.False? && c.severity.Error?
  }

  /** Every condition but Ready is True. */
  predicate AllSubConditionsTrue(cs: Conditions) {
    forall t | t in cs && t != ReadyCondition :: cs[t].True?
  }

  /** The summary written when a reconcile ends: Ready is True when all the others are;
      an Unknown Ready mirrors the rest. */
  function Summarize(cs: Conditions, mirror: Conditions -> Condition): Conditions {
    if AllSubConditionsTrue(cs) then cs[ReadyCondition := True]
    else if Get(cs, ReadyCondition).Unknown? then cs[ReadyCondition := mirror(cs)]
    else cs
  }

  /** A mirror never reports True while some condition is not. */
  ghost predicate MirrorIsSound(mirror: Conditions -> Condition) {
    forall cs :: mirror(cs).True? ==> AllSubConditionsTrue(cs)
  }

  /** With a sound mirror, the summary is Ready if and only if everything else is True. */
  lemma SoundMirrorDecides(cs: Conditions, mirror: Conditions -> Condition)
    requires MirrorIsSound(mirror) && Get(cs, ReadyCondition).Unknown?
    ensures IsTrue(Summarize(cs, mirror), ReadyCondition) <==> AllSubConditionsTrue(cs)
  {
  }
}
