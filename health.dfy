/** The health handler: the overall status derived from the promo service, and the two probes. */
module Health {
  import opened Wrappers
  import opened Models
  import Promo

  const ServiceName := "github.com/ilyulev/kart-challenge/backend-api"

  /**
   * The overall status: "starting" while no code is loaded, "degraded" while only the seed
   * codes are in use and a refresh has failed, "healthy" otherwise.
   */
  function OverallStatus(st: Promo.ServiceStatus): (s: string)
    ensures s == "starting" <==> st.codesLoaded == 0
    ensures s == "degraded" <==> st.codesLoaded != 0 && !st.isFullyLoaded && st.lastError != ""
    ensures s == "healthy" <==> st.codesLoaded != 0 && (st.isFullyLoaded || st.lastError == "")
  {
    if st.codesLoaded == 0 then "starting"
    else if !st.isFullyLoaded && st.lastError != "" then "degraded"
    else "healthy"
  }

  /** The promo details of the report, field by field from the snapshot. */
  function PromoDetails(st: Promo.ServiceStatus): (d: PromoServiceStatus)
    ensures d.status == st.status && d.dataSource == st.dataSource && d.codesLoaded == st.codesLoaded
    ensures d.isFullyLoaded == st.isFullyLoaded && d.lastError == st.lastError
  {
    PromoServiceStatus(st.status, st.dataSource, st.codesLoaded, st.isFullyLoaded, st.lastError)
  }

  /** `Health`, given the service's status snapshot: always 200, with the derived overall status. */
  function HealthReport(st: Promo.ServiceStatus): (r: Response)
    ensures r.code == 200 && r.body.HealthBody?
    ensures r.body.health.status == OverallStatus(st)
    ensures r.body.health.service == ServiceName
    ensures r.body.health.promoCodes == r.body.health.promoStatus.codesLoaded == st.codesLoaded
    ensures r.body.health.promoStatus == PromoDetails(st)
  {
    Response(200, HealthBody(HealthResponse(OverallStatus(st), ServiceName, st.codesLoaded, PromoDetails(st))))
  }

  /** `LivenessProbe`: always 200 "alive". */
  function LivenessProbe(): (r: Response)
    ensures r.code == 200 && r.body == StatusBody("alive")
  {
    Response(200, StatusBody("alive"))
  }

  /** `ReadinessProbe`, given the service's code count: ready as soon as any code is loaded. */
  function ReadinessProbe(codesCount: int): (r: Response)
    ensures r.code == 200 <==> codesCount > 0
    ensures r.code == 200 ==> r.body == StatusBody("ready")
    ensures r.code != 200 ==> r.code == 503 && r.body == StatusBody("not_ready")
  {
    if codesCount > 0 then Response(200, StatusBody("ready"))
    else Response(503, StatusBody("not_ready"))
  }

  /** For one service, the report says "starting" exactly when the readiness probe answers 503. */
  lemma StartingIffNotReady(svc: Promo.PromoCodeService)
    ensures HealthReport(svc.GetServiceStatus()).body.health.status == "starting" <==>
              ReadinessProbe(svc.GetValidCodesCount()).code == 503
  {
  }

  /** A service's overall status in terms of its fields. */
  lemma ServiceHealth(svc: Promo.PromoCodeService)
    ensures OverallStatus(svc.GetServiceStatus()) ==
              if svc.codesCount == 0 then "starting"
              else if !svc.isLoaded && svc.loadError.Some? && svc.loadError.value != "" then "degraded"
              else "healthy"
  {
  }

  /** A fully loaded service with codes reports "healthy" with data source "remote". */
  lemma LoadedIsHealthy(svc: Promo.PromoCodeService)
    requires svc.isLoaded && svc.codesCount > 0
    ensures HealthReport(svc.GetServiceStatus()).body.health.status == "healthy"
    ensures HealthReport(svc.GetServiceStatus()).body.health.promoStatus.dataSource == "remote"
  {
  }

  /** Serving the seed codes after a failed refresh reports "degraded" with data source "mock". */
  lemma FailedRefreshIsDegraded(svc: Promo.PromoCodeService)
    requires !svc.isLoaded && svc.codesCount > 0 && svc.loadError == Some(Promo.NoFilesError)
    ensures HealthReport(svc.GetServiceStatus()).body.health.status == "degraded"
    ensures HealthReport(svc.GetServiceStatus()).body.health.promoStatus.dataSource == "mock"
  {
  }
}
