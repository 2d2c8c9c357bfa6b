/** The fixed project settings the pipeline steps read. */
module Config {

  /** The ten counters the pipeline trains and predicts for, in processing order. */
  const SelectedCounters: seq<string> := [
    "urn:ngsi-ld:EcoCounter:X2H22043034",
    "urn:ngsi-ld:EcoCounter:X2H22043035",
    "urn:ngsi-ld:EcoCounter:X2H22104768",
    "urn:ngsi-ld:EcoCounter:X2H22104774",
    "urn:ngsi-ld:EcoCounter:X2H22104775",
    "urn:ngsi-ld:EcoCounter:X2H22104776",
    "urn:ngsi-ld:EcoCounter:X2H22104773",
    "urn:ngsi-ld:EcoCounter:X2H20042635",
    "urn:ngsi-ld:EcoCounter:X2H22104769",
    "urn:ngsi-ld:EcoCounter:X2H22104766"
  ]

  /** Ten counters, no id listed twice. */
  lemma SelectedCountersDistinct()
    ensures |SelectedCounters| == 10
    ensures forall i, j :: 0 <= i < j < |SelectedCounters| ==> SelectedCounters[i] != SelectedCounters[j]
  {
  }
}
