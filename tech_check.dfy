/** The equipment check: three probes (camera, microphone, internet), each
    with its own status, and the gate that opens only when all three passed. */
module TechCheck {

  /** `failed` is part of the status type but no code path produces it. */
  datatype TechStatus = Idle | Testing | Success | Failed

  datatype Probe = Camera | Mic | Internet

  /** The status cell a probe kind selects, as `testTech` picks its setter. */
  function StatusOf(camera: TechStatus, mic: TechStatus, internet: TechStatus, p: Probe): TechStatus {
    match p
    case Camera => camera
    case Mic => mic
    case Internet => internet
  }

  /** `allTechChecked`: the gate in front of the next screen. */
  predicate AllTechChecked(camera: TechStatus, mic: TechStatus, internet: TechStatus) {
    camera == Success && mic == Success && internet == Success
  }

  /** Whether a probe's "Test" button is enabled: it is disabled while that
      probe is testing and once it has succeeded, so an idle (or failed)
      probe may be started. */
  predicate CanStart(s: TechStatus) {
    !(s == Testing || s == Success)
  }

  /** The gate is open exactly when every probe, whichever kind, reports success. */
  lemma GateIsConjunction(camera: TechStatus, mic: TechStatus, internet: TechStatus)
    ensures AllTechChecked(camera, mic, internet)
        <==> forall p: Probe :: StatusOf(camera, mic, internet, p) == Success
  {
    if !AllTechChecked(camera, mic, internet) {
      var failing := if camera != Success then Camera else if mic != Success then Mic else Internet;
      assert StatusOf(camera, mic, internet, failing) != Success;
    }
  }

  /** Of the eight pass/no-pass patterns of the three probes, only the one in
      which all three pass opens the gate. */
  lemma GateTruthTable(camera: TechStatus, mic: TechStatus, internet: TechStatus)
    ensures camera != Success ==> !AllTechChecked(camera, mic, internet)
    ensures mic != Success ==> !AllTechChecked(camera, mic, internet)
    ensures internet != Success ==> !AllTechChecked(camera, mic, internet)
    ensures camera == mic == internet == Success ==> AllTechChecked(camera, mic, internet)
  {
  }

  /** A probe that is idle (or has failed) may be started; one under test or
      already passed may not. */
  lemma CanStartCases(s: TechStatus)
    ensures CanStart(s) <==> s == Idle || s == Failed
  {
  }
}
