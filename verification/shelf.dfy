/** The study shelf (`StudyShelf`): the list of a user's studies, fetched for
    the schema of the current connection type and enriched, study by study,
    with a bike-crash and a pedestrian-crash message read off the study's
    `bike_ped_crashes` list. A study is a JSON object; a row is that object
    with the two message fields added. */
module StudyShelf {
  import opened Wrappers
  import opened Js

  /** The backend schema of a connection type: `lts` for bikes, `sidewalk`
      for everything else. */
  function SchemaFor(connectionType: string): (schema: string)
    ensures schema == "lts" <==> connectionType == "bike"
    ensures schema == "sidewalk" <==> connectionType != "bike"
  {
    if connectionType == "bike" then "lts" else "sidewalk"
  }

  const TooLongMessage: string := "Segment too long for crash API"
  const BikeCountKey: string := "Total Bike Crashes"
  const PedCountKey: string := "Total Pedestrian Crashes"
  const BikeMessageKey: string := "bikeCrashesMessage"
  const PedMessageKey: string := "pedCrashesMessage"
  const CrashesKey: string := "bike_ped_crashes"

  /** A table row: a study object with the message fields added. */
  type Row = map<string, Json>

  /** Some crash entry is a string mentioning the crash service's 414 reply. */
  predicate TooLong(crashes: seq<Json>)
  {
    exists i :: 0 <= i < |crashes| && crashes[i].JStr? && Includes(crashes[i].s, "414")
  }

  /** The message for one count key: the too-long message, or the first
      entry's count (`crashes[0]?.[key] ?? 0`) followed by one space. */
  function CrashMessage(crashes: seq<Json>, key: string): string
  {
    if TooLong(crashes) then TooLongMessage
    else
      var first := Member(JArr(crashes), "0");
      ToText(Coalesce(OptionalMember(first, key), JNum(0))) + " "
  }

  /** `{...study, bikeCrashesMessage, pedCrashesMessage}`. Reading the crash
      list of anything but an object, or calling `find` on something that is
      not an array, throws. */
  function EnrichStudy(study: Json): (r: Result<Row, TypeError>)
    ensures r.Success? <==> study.JObj? && CrashesKey in study.fields && study.fields[CrashesKey].JArr?
  {
    match study
    case JObj(m) =>
      if CrashesKey in m && m[CrashesKey].JArr? then
        var crashes := m[CrashesKey].items;
        Success(m[BikeMessageKey := JStr(CrashMessage(crashes, BikeCountKey))]
                 [PedMessageKey := JStr(CrashMessage(crashes, PedCountKey))])
      else Failure(TypeError)
    case _ => Failure(TypeError)
  }

  /** `studies.map(...)`: one row per study, in order; the first study that
      throws aborts the whole mapping. */
  function EnrichAll(studies: seq<Json>): (r: Result<seq<Row>, TypeError>)
    ensures r.Success? ==> |r.value| == |studies|
    ensures r.Success? ==> forall i :: 0 <= i < |studies| ==> EnrichStudy(studies[i]) == Success(r.value[i])
    ensures r.Failure? <==> exists i :: 0 <= i < |studies| && EnrichStudy(studies[i]).Failure?
  {
    if |studies| == 0 then Success([])
    else
      match EnrichStudy(studies[0])
      case Failure(e) => Failure(e)
      case Success(row) =>
        match EnrichAll(studies[1..])
        case Failure(e) =>
          assert forall i :: 1 <= i < |studies| ==> studies[i] == studies[1..][i - 1];
          Failure(e)
        case Success(rows) =>
          assert forall i :: 1 <= i < |studies| ==> studies[i] == studies[1..][i - 1];
          Success([row] + rows)
  }

  /** The rows the table shows after a refresh. `response` is the decoded
      body of the studies request, `None` when the request or the decoding
      threw; every failure leaves the table empty. */
  function Refresh(response: Option<Json>): seq<Row>
  {
    match response
    case None => []
    case Some(data) =>
      match GetProp(response, "studies")
      case Failure(_) => []
      case Success(studies) =>
        if studies.Some? && studies.value.JArr? && |studies.value.items| > 0 then
          match EnrichAll(studies.value.items)
          case Success(rows) => rows
          case Failure(_) => []
        else []
  }

  // ---------------------------------------------------------------------------
  // Properties
  // ---------------------------------------------------------------------------

  /** The count the message reports, read directly off the crash list: the
      first entry's field when that entry is an object holding a non-null
      value under `key`. */
  function FirstCount(crashes: seq<Json>, key: string): Option<Json>
  {
    if |crashes| > 0 && crashes[0].JObj? && key in crashes[0].fields && crashes[0].fields[key] != JNull
    then Some(crashes[0].fields[key])
    else None
  }

  lemma FirstMember(crashes: seq<Json>)
    ensures |crashes| > 0 ==> Member(JArr(crashes), "0") == Some(crashes[0])
    ensures |crashes| == 0 ==> Member(JArr(crashes), "0") == None
  {
    assert NatToDecimal(0) == "0";
    if |crashes| > 0 {
      ArrayMemberAt(crashes, 0);
    }
  }

  /** A too-long reply anywhere wins; otherwise the message is the first
      entry's count, or 0 when that entry or its field is missing or null,
      followed by one space, so the two cases never produce the same text. */
  lemma CrashMessageSpec(crashes: seq<Json>, key: string)
    requires key != "length" && ParseDecimal(key).None?
    ensures TooLong(crashes) ==> CrashMessage(crashes, key) == TooLongMessage
    ensures !TooLong(crashes) ==>
              var msg := CrashMessage(crashes, key);
              && |msg| >= 1 && msg[|msg| - 1] == ' '
              && msg[..|msg| - 1] == ToText(FirstCount(crashes, key).GetOr(JNum(0)))
    ensures CrashMessage(crashes, key) == TooLongMessage <==> TooLong(crashes)
  {
    FirstMember(crashes);
    if !TooLong(crashes) {
      assert TooLongMessage[|TooLongMessage| - 1] != ' ';
    }
  }

  /** A numeric count reads back from its message. */
  lemma CrashCountReadsBack(crashes: seq<Json>, key: string, n: int)
    requires key != "length" && ParseDecimal(key).None?
    requires !TooLong(crashes) && FirstCount(crashes, key) == Some(JNum(n))
    ensures var msg := CrashMessage(crashes, key);
            |msg| >= 1 && ParseDecimal(msg[..|msg| - 1]) == Some(n)
  {
    CrashMessageSpec(crashes, key);
    ParseDecimalOfIntToDecimal(n);
  }

  lemma CountKeysAreNotIndices()
    ensures ParseDecimal(BikeCountKey).None? && ParseDecimal(PedCountKey).None?
  {
    assert !IsDigit(BikeCountKey[0]) && BikeCountKey[0] != '-';
    assert !IsDigit(PedCountKey[0]) && PedCountKey[0] != '-';
  }

  /** Enriching a study copies every field it had and adds exactly the two
      message fields, which agree on whether the segment was too long; the
      bike message reports the first entry's bike count and the pedestrian
      message its pedestrian count. */
  lemma EnrichStudySpec(study: Json)
    requires EnrichStudy(study).Success?
    ensures var row := EnrichStudy(study).value;
            && row.Keys == study.fields.Keys + {BikeMessageKey, PedMessageKey}
            && (forall k :: k in study.fields && k != BikeMessageKey && k != PedMessageKey ==>
                  row[k] == study.fields[k])
            && (row[BikeMessageKey] == JStr(TooLongMessage) <==> TooLong(study.fields[CrashesKey].items))
            && (row[PedMessageKey] == JStr(TooLongMessage) <==> TooLong(study.fields[CrashesKey].items))
            && (!TooLong(study.fields[CrashesKey].items) ==>
                  row[BikeMessageKey]
                  == JStr(ToText(FirstCount(study.fields[CrashesKey].items, BikeCountKey).GetOr(JNum(0))) + " "))
            && (!TooLong(study.fields[CrashesKey].items) ==>
                  row[PedMessageKey]
                  == JStr(ToText(FirstCount(study.fields[CrashesKey].items, PedCountKey).GetOr(JNum(0))) + " "))
  {
    CountKeysAreNotIndices();
    CrashMessageSpec(study.fields[CrashesKey].items, BikeCountKey);
    CrashMessageSpec(study.fields[CrashesKey].items, PedCountKey);
  }

  /** The table is filled only from a non-empty `studies` array, one row per
      study in order, and only when every study enriches; it is empty
      otherwise. */
  lemma RefreshSpec(response: Option<Json>)
    ensures |Refresh(response)| > 0 <==>
              && response.Some? && response.value.JObj?
              && "studies" in response.value.fields
              && response.value.fields["studies"].JArr?
              && |response.value.fields["studies"].items| > 0
              && forall i :: 0 <= i < |response.value.fields["studies"].items| ==>
                   EnrichStudy(response.value.fields["studies"].items[i]).Success?
    ensures |Refresh(response)| > 0 ==>
              var studies := response.value.fields["studies"].items;
              && |Refresh(response)| == |studies|
              && forall i :: 0 <= i < |studies| ==> EnrichStudy(studies[i]) == Success(Refresh(response)[i])
  {
    if response.Some? {
      match response.value
      case JArr(xs) =>
        assert ArrayIndex("studies", |xs|).None? by { assert !IsDigit("studies"[0]); }
      case JStr(s) =>
        assert ArrayIndex("studies", |s|).None? by { assert !IsDigit("studies"[0]); }
      case _ =>
    }
  }
}
