/** The header-to-column mapping `parse_fields`. */
module Fields {
  import opened PyStr

  /** The nine column names the converter reads, in the order `FIELDS`
      lists them. */
  const FIELDS: seq<Str> :=
    ["mediaType", "name", "description", "downloadUrl", "userId",
     "tags", "categories", "startDate", "endDate"]

  /** The nine fields, named after their place in `FIELDS`. */
  datatype Field =
    | MediaTypeField | NameField | DescriptionField | DownloadUrlField | UserIdField
    | TagsField | CategoriesField | StartDateField | EndDateField

  /** The position of a field's name in `FIELDS`. */
  function Position(f: Field): (i: nat)
    ensures i < |FIELDS|
  {
    match f
    case MediaTypeField => 0
    case NameField => 1
    case DescriptionField => 2
    case DownloadUrlField => 3
    case UserIdField => 4
    case TagsField => 5
    case CategoriesField => 6
    case StartDateField => 7
    case EndDateField => 8
  }

  /** Each field sits in `FIELDS` under its own column name. */
  lemma PositionNames()
    ensures FIELDS[Position(MediaTypeField)] == "mediaType"
    ensures FIELDS[Position(NameField)] == "name"
    ensures FIELDS[Position(DescriptionField)] == "description"
    ensures FIELDS[Position(DownloadUrlField)] == "downloadUrl"
    ensures FIELDS[Position(UserIdField)] == "userId"
    ensures FIELDS[Position(TagsField)] == "tags"
    ensures FIELDS[Position(CategoriesField)] == "categories"
    ensures FIELDS[Position(StartDateField)] == "startDate"
    ensures FIELDS[Position(EndDateField)] == "endDate"
  {
  }

  /** The nine names are pairwise distinct, so the dictionary `parse_fields`
      builds has one entry per field. */
  lemma FieldNamesDistinct()
    ensures |FIELDS| == 9
    ensures forall i, j :: 0 <= i < j < |FIELDS| ==> FIELDS[i] != FIELDS[j]
  {
  }

  /** Column name to column index. */
  type FieldMap = map<Str, nat>

  /** The dictionary `parse_fields` returns, or the name whose
      `headers.index` lookup raised. */
  datatype Parsed = Fields(fields: FieldMap) | MissingField(name: Str)

  /** `i` is the position of the first occurrence of `f` in `headers`. */
  predicate FirstIndex(headers: seq<Str>, f: Str, i: nat)
  {
    i < |headers| && headers[i] == f && forall j :: 0 <= j < i ==> headers[j] != f
  }

  /** `dict([(field, headers.index(field)) for field in names])`. The
      comprehension runs left to right, so the first name that is not in the
      header is the one reported. */
  function ParseNames(names: seq<Str>, headers: seq<Str>): (r: Parsed)
    ensures r.Fields? <==> forall f :: f in names ==> f in headers
    ensures r.Fields? ==> r.fields.Keys == set f | f in names
    ensures r.Fields? ==> forall f :: f in r.fields ==> FirstIndex(headers, f, r.fields[f])
    ensures r.MissingField? ==>
      exists k :: 0 <= k < |names| && names[k] == r.name && r.name !in headers &&
        forall j :: 0 <= j < k ==> names[j] in headers
  {
    if names == [] then Fields(map[])
    else match IndexOf(headers, names[0])
      case None => MissingField(names[0])
      case Some(i) =>
        match ParseNames(names[1..], headers)
        case MissingField(f) =>
          assert names[1..][0] == names[1];
          MissingField(f)
        case Fields(m) =>
          assert forall f :: f in names <==> f == names[0] || f in names[1..];
          Fields(m[names[0] := i])
  }

  /** `parse_fields(headers)`: every one of the nine names is mapped to the
      index of its first occurrence in the header; the lookup fails exactly
      when one of them is absent, and then names the first absent one. */
  function ParseFields(headers: seq<Str>): (r: Parsed)
    ensures r.Fields? <==> forall f :: f in FIELDS ==> f in headers
    ensures r.Fields? ==> r.fields.Keys == set f | f in FIELDS
    ensures r.Fields? ==> forall f :: f in FIELDS ==> FirstIndex(headers, f, r.fields[f])
    ensures r.MissingField? ==>
      exists k :: 0 <= k < |FIELDS| && FIELDS[k] == r.name && r.name !in headers &&
        forall j :: 0 <= j < k ==> FIELDS[j] in headers
  {
    ParseNames(FIELDS, headers)
  }

  /** Columns added after the header's own do not change the mapping. */
  lemma {:induction false} ParseNamesExtraColumns(names: seq<Str>, headers: seq<Str>, extra: seq<Str>)
    requires ParseNames(names, headers).Fields?
    ensures ParseNames(names, headers + extra) == ParseNames(names, headers)
  {
    if names != [] {
      IndexOfAppend(headers, extra, names[0]);
      ParseNamesExtraColumns(names[1..], headers, extra);
    }
  }
}
