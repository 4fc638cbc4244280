/** The study-table columns (`useColumns`): their fixed order, the public link
    of a shared study, and the text of the cells that are not plain values.
    A row is a study object as `StudyShelf` produces it. */
module Columns {
  import opened Wrappers
  import opened Js
  import StudyShelf

  datatype Column = Column(accessorKey: string, header: string)

  /** The columns, in display order. */
  const StudyColumns: seq<Column> := [
    Column("shared", "Shared"),
    Column("username", "Username"),
    Column("seg_name", "Segment Name"),
    Column("has_isochrone", "Has Isochrone"),
    Column("miles", "Miles"),
    Column("total_pop", "Total Population"),
    Column("disabled", "Disabled Individuals"),
    Column("ethnic_minority", "Ethnic Minorities"),
    Column("female", "Female"),
    Column("foreign_born", "Foreign Born"),
    Column("lep", "Limited English Proficiency (LEP)"),
    Column("low_income", "Low Income"),
    Column("older_adult", "Older Adults"),
    Column("racial_minority", "Racial Minorities"),
    Column("youth", "Youth"),
    Column("circuit", "Circuit"),
    Column("total_jobs", "Total Jobs"),
    Column(StudyShelf.BikeMessageKey, "Bike Crashes"),
    Column(StudyShelf.PedMessageKey, "Pedestrian Crashes"),
    Column("essential_services", "Essential Services"),
    Column("rail_stations", "Rail Stations")
  ]

  /** The table opens with the sharing switch, the owner and the segment name,
      shows each field at most once, and ends with the columns of the two
      messages the shelf adds and the two nearby-feature lists. */
  lemma StudyColumnsLayout()
    ensures |StudyColumns| == 21
    ensures StudyColumns[..3] == [Column("shared", "Shared"), Column("username", "Username"),
                                  Column("seg_name", "Segment Name")]
    ensures forall i, j :: 0 <= i < j < |StudyColumns| ==>
              StudyColumns[i].accessorKey != StudyColumns[j].accessorKey
    ensures StudyColumns[17].accessorKey == StudyShelf.BikeMessageKey
    ensures StudyColumns[18].accessorKey == StudyShelf.PedMessageKey
  {
  }

  /** `row[key]`; `None` is `undefined`. */
  function Field(row: StudyShelf.Row, key: string): Value
  {
    if key in row then Some(row[key]) else None
  }

  // ---------------------------------------------------------------------------
  // Public link
  // ---------------------------------------------------------------------------

  /** `/webmaps/link/user/${username}/${schema}/study/${seg_name}`, from the
      texts of the three parts. */
  function LinkPath(username: string, schema: string, segName: string): string
  {
    "/webmaps/link/user/" + username + "/" + schema + "/study/" + segName
  }

  /** The schema segment of the link: `lts` for the bike connection, and
      `sidewalk` for any other, an `undefined` (`None`) connection included. */
  function LinkSchema(connectionType: Option<string>): (schema: string)
    ensures schema == "lts" <==> connectionType == Some("bike")
    ensures schema == "sidewalk" <==> connectionType != Some("bike")
  {
    if connectionType == Some("bike") then "lts" else "sidewalk"
  }

  /** The link shown beside the sharing switch: present only when the row's
      `shared` is loosely equal to `true`. */
  function PublicLink(row: StudyShelf.Row, connectionType: Option<string>): Option<string>
  {
    if LooseEqualsTrue(Field(row, "shared")) then
      Some(LinkPath(TemplateText(Field(row, "username")), LinkSchema(connectionType),
                    TemplateText(Field(row, "seg_name"))))
    else None
  }

  /** Splits a path at every `/`. */
  function SplitSlash(p: string): (parts: seq<string>)
    ensures |parts| >= 1
  {
    if |p| == 0 then [""]
    else
      var rest := SplitSlash(p[1..]);
      if p[0] == '/' then [""] + rest else [[p[0]] + rest[0]] + rest[1..]
  }

  /** Joins segments with `/`. */
  function JoinSlash(parts: seq<string>): string
    requires |parts| >= 1
  {
    if |parts| == 1 then parts[0] else parts[0] + "/" + JoinSlash(parts[1..])
  }

  lemma JoinSlashCons(head: string, tail: seq<string>)
    requires |tail| >= 1
    ensures JoinSlash([head] + tail) == head + "/" + JoinSlash(tail)
  {
    assert ([head] + tail)[1..] == tail;
  }

  datatype LinkTarget = LinkTarget(username: string, schema: string, segName: string)

  /** Reads the owner, schema and segment back out of a link path. */
  function ParseLinkPath(p: string): Option<LinkTarget>
  {
    var parts := SplitSlash(p);
    if |parts| == 8 && parts[0] == "" && parts[1] == "webmaps" && parts[2] == "link"
       && parts[3] == "user" && parts[6] == "study"
    then Some(LinkTarget(parts[4], parts[5], parts[7]))
    else None
  }

  lemma {:induction false} SplitSegmentThenRest(a: string, b: string)
    requires '/' !in a
    ensures SplitSlash(a + "/" + b) == [a] + SplitSlash(b)
  {
    if |a| > 0 {
      SplitSegmentThenRest(a[1..], b);
      assert (a + "/" + b)[1..] == a[1..] + "/" + b;
      assert a[0] in a;
      assert a == [a[0]] + a[1..];
    } else {
      assert (a + "/" + b)[1..] == b;
    }
  }

  lemma {:induction false} SplitSegment(a: string)
    requires '/' !in a
    ensures SplitSlash(a) == [a]
  {
    if |a| > 0 {
      SplitSegment(a[1..]);
      assert a == [a[0]] + a[1..];
    }
  }

  /** Splitting undoes joining when no segment contains a `/`. */
  lemma {:induction false} SplitJoin(parts: seq<string>)
    requires |parts| >= 1
    requires forall i :: 0 <= i < |parts| ==> '/' !in parts[i]
    ensures SplitSlash(JoinSlash(parts)) == parts
  {
    if |parts| == 1 {
      SplitSegment(parts[0]);
    } else {
      SplitJoin(parts[1..]);
      SplitSegmentThenRest(parts[0], JoinSlash(parts[1..]));
      assert parts == [parts[0]] + parts[1..];
    }
  }

  lemma LinkPathIsJoin(u: string, schema: string, seg: string)
    ensures LinkPath(u, schema, seg) == JoinSlash(["", "webmaps", "link", "user", u, schema, "study", seg])
  {
    JoinSlashCons("study", [seg]);
    JoinSlashCons(schema, ["study", seg]);
    JoinSlashCons(u, [schema, "study", seg]);
    JoinSlashCons("user", [u, schema, "study", seg]);
    JoinSlashCons("link", ["user", u, schema, "study", seg]);
    JoinSlashCons("webmaps", ["link", "user", u, schema, "study", seg]);
    JoinSlashCons("", ["webmaps", "link", "user", u, schema, "study", seg]);
    LinkPrefixNested(u + "/" + (schema + "/" + ("study" + "/" + seg)));
    LinkPathNested(u, schema, seg);
  }

  lemma LinkPrefixNested(x: string)
    ensures "/webmaps/link/user/" + x == "" + "/" + ("webmaps" + "/" + ("link" + "/" + ("user" + "/" + x)))
  {
  }

  lemma LinkPathNested(u: string, schema: string, seg: string)
    ensures LinkPath(u, schema, seg) == "/webmaps/link/user/" + (u + "/" + (schema + "/" + ("study" + "/" + seg)))
  {
  }

  /** A link path gives back the owner, schema and segment it was built from
      whenever none of them contains a `/`. */
  lemma LinkPathRoundTrip(u: string, schema: string, seg: string)
    requires '/' !in u && '/' !in schema && '/' !in seg
    ensures ParseLinkPath(LinkPath(u, schema, seg)) == Some(LinkTarget(u, schema, seg))
  {
    LinkPathIsJoin(u, schema, seg);
    SplitJoin(["", "webmaps", "link", "user", u, schema, "study", seg]);
  }

  /** The link is shown exactly for rows whose `shared` is loosely `true`, and
      it names the row's owner, the connection's schema and the row's segment,
      which read back from the link whenever the owner and segment texts hold
      no `/`. */
  lemma PublicLinkSpec(row: StudyShelf.Row, connectionType: Option<string>)
    ensures PublicLink(row, connectionType).Some? <==> LooseEqualsTrue(Field(row, "shared"))
    ensures Field(row, "shared") == Some(JBool(true)) ==> PublicLink(row, connectionType).Some?
    ensures var u := TemplateText(Field(row, "username"));
            var seg := TemplateText(Field(row, "seg_name"));
            PublicLink(row, connectionType).Some? && '/' !in u && '/' !in seg ==>
              ParseLinkPath(PublicLink(row, connectionType).value)
              == Some(LinkTarget(u, if connectionType == Some("bike") then "lts" else "sidewalk", seg))
  {
    var u := TemplateText(Field(row, "username"));
    var seg := TemplateText(Field(row, "seg_name"));
    var schema := LinkSchema(connectionType);
    if PublicLink(row, connectionType).Some? && '/' !in u && '/' !in seg {
      assert '/' !in schema by { assert schema == "lts" || schema == "sidewalk"; }
      LinkPathRoundTrip(u, schema, seg);
    }
  }

  /** The link in the shelf's table as the shelf wires it up: the shelf calls
      `useColumns()` without arguments, so the connection type the columns see
      is `undefined` whatever the shelf's own connection type is. */
  function ShelfLinkAsWritten(row: StudyShelf.Row, connectionType: string): Option<string>
  {
    PublicLink(row, None)
  }

  /** On the bike shelf, whose studies come from the `lts` schema, a shared
      study's link as wired points into the `sidewalk` schema. */
  lemma ShelfLinkAsWrittenUsesWrongSchema()
    ensures var row := map["shared" := JBool(true), "username" := JStr("ann"), "seg_name" := JStr("elm")];
            && StudyShelf.SchemaFor("bike") == "lts"
            && ShelfLinkAsWritten(row, "bike").Some?
            && ParseLinkPath(ShelfLinkAsWritten(row, "bike").value) == Some(LinkTarget("ann", "sidewalk", "elm"))
  {
    var row := map["shared" := JBool(true), "username" := JStr("ann"), "seg_name" := JStr("elm")];
    assert Field(row, "username") == Some(JStr("ann"));
    assert Field(row, "seg_name") == Some(JStr("elm"));
    LinkPathRoundTrip("ann", "sidewalk", "elm");
  }

  /** The link in the shelf's table with the shelf's connection type passed
      through to the columns. */
  function ShelfLink(row: StudyShelf.Row, connectionType: string): Option<string>
  {
    PublicLink(row, Some(connectionType))
  }

  /** With the connection passed through, a shared study's link names the
      schema the shelf fetched its studies from. */
  lemma ShelfLinkNamesFetchedSchema(row: StudyShelf.Row, connectionType: string)
    ensures ShelfLink(row, connectionType).Some? <==> LooseEqualsTrue(Field(row, "shared"))
    ensures var u := TemplateText(Field(row, "username"));
            var seg := TemplateText(Field(row, "seg_name"));
            ShelfLink(row, connectionType).Some? && '/' !in u && '/' !in seg ==>
              ParseLinkPath(ShelfLink(row, connectionType).value)
              == Some(LinkTarget(u, StudyShelf.SchemaFor(connectionType), seg))
  {
    PublicLinkSpec(row, Some(connectionType));
  }

  // ---------------------------------------------------------------------------
  // Cell text
  // ---------------------------------------------------------------------------

  /** The "Has Isochrone" cell: strict comparison with `true`. */
  function IsochroneCell(row: StudyShelf.Row): (text: string)
    ensures text == "Yes" <==> StrictTrue(Field(row, "has_isochrone"))
    ensures text == "No" <==> !StrictTrue(Field(row, "has_isochrone"))
  {
    if StrictTrue(Field(row, "has_isochrone")) then "Yes" else "No"
  }

  /** `value || 'N/A'`, the renderer of the circuit, essential-services and
      rail-stations cells: the value itself when truthy. */
  function OrNotAvailable(v: Value): (shown: Json)
    ensures Truthy(v) ==> Some(shown) == v
    ensures !Truthy(v) ==> shown == JStr("N/A")
  {
    if Truthy(v) then v.value else JStr("N/A")
  }

  /** `OrNotAvailable` is JavaScript's `||` with the fallback "N/A". */
  lemma OrNotAvailableIsOr(v: Value)
    ensures Some(OrNotAvailable(v)) == Or(v, Some(JStr("N/A")))
  {
  }

  /** The table's three tests of a value are nested: a value the isochrone
      cell shows as "Yes" would also show the Public Link, and a value that
      shows the link would be shown as is by an `|| 'N/A'` cell. */
  lemma CellTestsNested(j: Json, connectionType: Option<string>)
    ensures IsochroneCell(map["has_isochrone" := j]) == "Yes" ==>
              PublicLink(map["shared" := j], connectionType).Some?
    ensures PublicLink(map["shared" := j], connectionType).Some? ==> OrNotAvailable(Some(j)) == j
  {
    TruthTestsNested(Some(j));
    assert Field(map["has_isochrone" := j], "has_isochrone") == Some(j);
    assert Field(map["shared" := j], "shared") == Some(j);
  }

  /** None of the nestings reverses: a numeric 1 shows the link but reads
      "No" in the isochrone cell, and the text "yes" is shown as is by an
      `|| 'N/A'` cell but shows no link. */
  lemma SharedLooseIsochroneStrict()
    ensures PublicLink(map["shared" := JNum(1)], Some("bike")).Some?
    ensures IsochroneCell(map["has_isochrone" := JNum(1)]) == "No"
    ensures PublicLink(map["shared" := JStr("yes")], Some("bike")).None?
    ensures OrNotAvailable(Some(JStr("yes"))) == JStr("yes")
  {
    assert !IsDigit("yes"[0]) && "yes"[0] != '-';
  }
}
