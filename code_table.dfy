/**
  The fixed table from component codes to attribute names (52 entries). It is
  written as the union of two map displays, the first 26 entries and the rest
  in the table's own order; no code occurs in both, so the union is the table.
*/
module CodeTable {

  const KeyToAttrMapping: map<string, string> := FirstCodes + LaterCodes

  const FirstCodes: map<string, string> := map[
    "5" := "projectNumber",
    "900" := "stationName",
    "12" := "stationName",
    "802" := "siteTypeCode",
    "6" := "districtCode",
    "41" := "countryCode",
    "7" := "stateFipsCode",
    "8" := "countyCode",
    "42" := "minorCivilDivisionCode",
    "9" := "latitude",
    "10" := "longitude",
    "11" := "coordinateAccuracyCode",
    "35" := "coordinateMethodCode",
    "36" := "coordinateDatumCode",
    "16" := "altitude",
    "18" := "altitudeAccuracyValue",
    "17" := "altitudeMethodCode",
    "22" := "altitudeDatumCode",
    "13" := "landNet",
    "19" := "topographicCode",
    "20" := "hydrologicUnitCode",
    "801" := "basinCode",
    "813" := "timeZoneCode",
    "814" := "daylightSavingsTimeFlag",
    "14" := "mapName",
    "15" := "mapScale"
  ]

  const LaterCodes: map<string, string> := map[
    "803" := "agencyUseCode",
    "39" := "nationalWaterUseCode",
    "804" := "dataTypesCode",
    "805" := "instrumentsCode",
    "711" := "siteEstablishmentDate",
    "806" := "remarks",
    "32" := "siteWebReadyCode",
    "3" := "dataReliabilityCode",
    "21" := "firstConstructionDate",
    "23" := "primaryUseOfSiteCode",
    "301" := "secondaryUseOfSiteCode",
    "302" := "tertiaryUseOfSiteCode",
    "24" := "primaryUseOfWaterCode",
    "25" := "secondaryUseOfWaterCode",
    "26" := "tertiaryUseOfWaterCode",
    "713" := "aquiferTypeCode",
    "714" := "aquiferCode",
    "715" := "nationalAquiferCode",
    "27" := "holeDepth",
    "28" := "wellDepth",
    "29" := "sourceOfDepthCode",
    "808" := "drainageArea",
    "809" := "contributingDrainageArea",
    "712" := "gwFileCode",
    "R" := "databaseTableIdentifier",
    "T" := "transactionType"
  ]

  /** The key of a pair whose attribute is the station name. */
  predicate IsStationNameCode(key: string) {
    key in KeyToAttrMapping && KeyToAttrMapping[key] == "stationName"
  }

  /** Two codes, and only those two, name the station: the table's deliberate collision. */
  lemma StationNameCodes(key: string)
    ensures IsStationNameCode(key) <==> key == "900" || key == "12"
  {
    FirstStationNameCodes(key);
    LaterCodesNoStationName(key);
  }

  lemma FirstStationNameCodes(key: string)
    ensures key in FirstCodes && FirstCodes[key] == "stationName" <==> key == "900" || key == "12"
  {
  }

  lemma LaterCodesNoStationName(key: string)
    ensures key in LaterCodes ==> LaterCodes[key] != "stationName" && key != "900" && key != "12"
  {
  }
}
