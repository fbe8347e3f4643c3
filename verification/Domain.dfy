/** The closed vocabularies of applications, offers and cycles (backend/app/domain/shared.py). */
module Domain {
  datatype ApplicationStatus =
    | InProgress | PendingOffer | Offered | Accepted | Declined | Rejected | Withdrawn | AutoWithdrawn | OfferTerminated

  datatype Role = Placement | Internship

  datatype CycleKind = PlacementCycle | InternshipCycle | OpenCycle

  datatype OfferExpiry = AutoDecline | AutoAccept

  datatype Response = AcceptedOffer | DeclinedOffer

  /** The stored values pending, active, rejected, withdrawn and removed. */
  datatype MembershipStatus = Pending | Active | Refused | LeftCycle | Removed

  /** Statuses from which an application can still move forward without staff intervention. */
  predicate IsLive(s: ApplicationStatus) {
    s.InProgress? || s.PendingOffer? || s.Offered?
  }
}
