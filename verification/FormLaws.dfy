/** What an accepted form holds: each part is one field or one file, with what the part said and nothing else. */
module FormLaws {
  import opened Basics
  import opened Dispositions
  import opened Forms
  import opened MultipartLaws
  import opened MultipartSpec
  import opened Text

  predicate Called(h: Param, name: string)
  {
    SameIgnoringCase(h.key, Ascii(name))
  }

  /** The one content-disposition of a header section, whose parameters are these. */
  ghost predicate DisposedAs(headers: seq<Param>, name: Bytes, filename: Option<Bytes>)
  {
    exists i :: DisposedAt(headers, i, name, filename)
  }

  predicate DisposedAt(headers: seq<Param>, i: int, name: Bytes, filename: Option<Bytes>)
  {
    && 0 <= i < |headers| && Called(headers[i], "content-disposition")
    && (forall j | 0 <= j < |headers| && j != i :: !Called(headers[j], "content-disposition"))
    && Disposition(headers[i].value) == Read(Some(name), filename)
  }

  /** The first content-type of a header section, if it says something. */
  ghost predicate TypedAs(headers: seq<Param>, mediaType: Option<Bytes>)
  {
    if exists i :: FirstType(headers, i) then
      exists i :: FirstType(headers, i) && mediaType == if headers[i].value == [] then None else Some(headers[i].value)
    else mediaType.None?
  }

  predicate FirstType(headers: seq<Param>, i: int)
  {
    && 0 <= i < |headers| && Called(headers[i], "content-type")
    && forall j | 0 <= j < i :: !Called(headers[j], "content-type")
  }

  /** The field is what this part says. */
  ghost predicate FieldOf(f: Field, part: Bytes, given: Given)
  {
    && given.section(part) == Complete(f.headers, f.value)
    && f.name != [] && DisposedAs(f.headers, f.name, None)
  }

  ghost predicate FileOf(f: File, part: Bytes, given: Given)
  {
    && given.section(part) == Complete(f.headers, f.content)
    && f.name != [] && DisposedAs(f.headers, f.name, Some(f.filename))
    && TypedAs(f.headers, f.mediaType)
  }

  /** The fields and the files, taken alternately as the parts say, are the parts in order. */
  ghost predicate Holds(form: Form, parts: seq<Bytes>, given: Given)
    decreases |parts|
  {
    if parts == [] then form == Form([], [])
    else
      var n, part := |parts| - 1, parts[|parts| - 1];
      || (form.files != [] && FileOf(form.files[|form.files| - 1], part, given)
          && Holds(form.(files := form.files[..|form.files| - 1]), parts[..n], given))
      || (form.fields != [] && FieldOf(form.fields[|form.fields| - 1], part, given)
          && Holds(form.(fields := form.fields[..|form.fields| - 1]), parts[..n], given))
  }

  lemma {:induction false} ValuesNone(headers: seq<Param>, name: string)
    ensures ValuesOf(headers, Ascii(name)) == [] <==> forall j | 0 <= j < |headers| :: !Called(headers[j], name)
    decreases |headers|
  {
    if headers != [] {
      ValuesNone(headers[1..], name);
      if forall j | 0 <= j < |headers| :: !Called(headers[j], name) {
        assert !Called(headers[0], name);
        forall j | 0 <= j < |headers| - 1 ensures !Called(headers[1..][j], name) { assert !Called(headers[j + 1], name); }
      }
      if ValuesOf(headers, Ascii(name)) == [] {
        forall j | 0 <= j < |headers| ensures !Called(headers[j], name) {
          assert j > 0 ==> headers[j] == headers[1..][j - 1];
        }
      }
    }
  }

  /** The first value of a name stands at the first header of that name. */
  lemma {:induction false} FirstValue(headers: seq<Param>, name: string) returns (i: nat)
    requires ValuesOf(headers, Ascii(name)) != []
    ensures i < |headers| && Called(headers[i], name) && ValuesOf(headers, Ascii(name))[0] == headers[i].value
    ensures forall j | 0 <= j < i :: !Called(headers[j], name)
    ensures |ValuesOf(headers, Ascii(name))| == 1 ==> forall j | i < j < |headers| :: !Called(headers[j], name)
    decreases |headers|
  {
    if Called(headers[0], name) {
      i := 0;
      ValuesNone(headers[1..], name);
      forall j | 0 < j < |headers| && |ValuesOf(headers, Ascii(name))| == 1 ensures !Called(headers[j], name) {
        assert headers[j] == headers[1..][j - 1];
      }
    } else {
      var k := FirstValue(headers[1..], name);
      i := k + 1;
      forall j | 0 <= j < i ensures !Called(headers[j], name) {
        assert j > 0 ==> headers[j] == headers[1..][j - 1];
      }
      forall j | i < j < |headers| && |ValuesOf(headers, Ascii(name))| == 1 ensures !Called(headers[j], name) {
        assert headers[j] == headers[1..][j - 1];
      }
    }
  }

  lemma TypedByMediaType(headers: seq<Param>)
    ensures TypedAs(headers, MediaType(headers))
  {
    if ValuesOf(headers, MEDIA_TYPE) == [] {
      ValuesNone(headers, "content-type");
    } else {
      var i := FirstValue(headers, "content-type");
      assert FirstType(headers, i);
    }
  }

  lemma OneDisposition(headers: seq<Param>, name: Bytes, filename: Option<Bytes>)
    requires |ValuesOf(headers, DISPOSITION)| == 1
    requires Disposition(ValuesOf(headers, DISPOSITION)[0]) == Read(Some(name), filename)
    ensures DisposedAs(headers, name, filename)
  {
    var i := FirstValue(headers, "content-disposition");
    assert DisposedAt(headers, i, name, filename);
  }

  /** A part that is taken ends up as one field or one file that says what it says; the others stay. */
  lemma PartIsHeld(part: Bytes, limits: Limits, given: Given, form: Form)
    requires AddPart(part, limits, given, form).Ok?
    ensures var grown := AddPart(part, limits, given, form).form;
            || (grown.files == form.files && |grown.fields| == |form.fields| + 1
                && grown.fields[..|form.fields|] == form.fields && FieldOf(grown.fields[|form.fields|], part, given))
            || (grown.fields == form.fields && |grown.files| == |form.files| + 1
                && grown.files[..|form.files|] == form.files && FileOf(grown.files[|form.files|], part, given))
  {
    hide DisposedAs, TypedAs, Disposition, ValuesOf, MediaType;
    var s := given.section(part);
    var read := Disposition(ValuesOf(s.headers, DISPOSITION)[0]);
    OneDisposition(s.headers, read.name.value, read.filename);
    TypedByMediaType(s.headers);
  }

  lemma {:induction false} AddAllHolds(parts: seq<Bytes>, limits: Limits, given: Given, form: Form, done: seq<Bytes>)
    requires Holds(form, done, given)
    ensures var r := AddAll(parts, limits, given, form);
            r.Ok? ==> Holds(r.form, done + parts, given)
    decreases |parts|
  {
    hide FieldOf, FileOf, CountAndAdd, AddPart, Holds;
    if parts == [] {
      assert done + parts == done;
    } else {
      var r := CountAndAdd(parts[0], limits, given, form);
      if r.Ok? {
        CountedIsAdded(parts[0], limits, given, form);
        PartIsHeld(parts[0], limits, given, form);
        HoldsOneMore(form, done, r.form, parts[0], given);
        AddAllHolds(parts[1..], limits, given, r.form, done + [parts[0]]);
        assert (done + [parts[0]]) + parts[1..] == done + parts;
      }
    }
  }

  lemma CountedIsAdded(part: Bytes, limits: Limits, given: Given, form: Form)
    requires CountAndAdd(part, limits, given, form).Ok?
    ensures AddPart(part, limits, given, form) == CountAndAdd(part, limits, given, form)
  {
  }

  lemma HoldsOneMore(form: Form, done: seq<Bytes>, grown: Form, part: Bytes, given: Given)
    requires Holds(form, done, given)
    requires || (grown.files == form.files && |grown.fields| == |form.fields| + 1
                 && grown.fields[..|form.fields|] == form.fields && FieldOf(grown.fields[|form.fields|], part, given))
             || (grown.fields == form.fields && |grown.files| == |form.files| + 1
                 && grown.files[..|form.files|] == form.files && FileOf(grown.files[|form.files|], part, given))
    ensures Holds(grown, done + [part], given)
  {
    hide FieldOf, FileOf;
    assert (done + [part])[..|done|] == done;
    if grown.files == form.files && |grown.fields| == |form.fields| + 1 {
      assert grown.(fields := grown.fields[..|grown.fields| - 1]) == form;
    } else {
      assert grown.(files := grown.files[..|grown.files| - 1]) == form;
    }
  }

  /** Every accepted part list becomes exactly its fields and files, in order. */
  lemma FormHoldsItsParts(parts: seq<Bytes>, limits: Limits, given: Given)
    requires AddAll(parts, limits, given, EMPTY).Ok?
    ensures Holds(AddAll(parts, limits, given, EMPTY).form, parts, given)
  {
    AddAllHolds(parts, limits, given, EMPTY, []);
    assert [] + parts == parts;
  }

  /** A part that can be taken as a field, or as a file: it names itself and is not too long. */
  ghost predicate FitsAsField(part: Bytes, limits: Limits, given: Given)
  {
    && given.section(part).Complete? && |given.section(part).content| <= limits.maxFieldSize
    && exists name :: name != [] && DisposedAs(given.section(part).headers, name, None)
  }

  ghost predicate NamesFile(part: Bytes, given: Given)
  {
    given.section(part).Complete?
    && exists name, filename :: name != [] && DisposedAs(given.section(part).headers, name, Some(filename))
  }

  ghost predicate FitsAsFile(part: Bytes, limits: Limits, given: Given)
  {
    NamesFile(part, given) && |given.section(part).content| <= limits.maxFileSize
  }

  ghost function FileCount(parts: seq<Bytes>, given: Given): nat
  {
    if parts == [] then 0 else (if NamesFile(parts[0], given) then 1 else 0) + FileCount(parts[1..], given)
  }

  lemma {:induction false} SoleValue(headers: seq<Param>, name: string, i: nat)
    requires i < |headers| && Called(headers[i], name)
    requires forall j | 0 <= j < |headers| && j != i :: !Called(headers[j], name)
    ensures ValuesOf(headers, Ascii(name)) == [headers[i].value]
    decreases |headers|
  {
    if i == 0 {
      forall j | 0 <= j < |headers| - 1 ensures !Called(headers[1..][j], name) { assert headers[1..][j] == headers[j + 1]; }
      ValuesNone(headers[1..], name);
    } else {
      assert headers[1..][i - 1] == headers[i] && !Called(headers[0], name);
      forall j | 0 <= j < |headers| - 1 && j != i - 1 ensures !Called(headers[1..][j], name) {
        assert headers[1..][j] == headers[j + 1];
      }
      SoleValue(headers[1..], name, i - 1);
    }
  }

  lemma DisposedOnce(headers: seq<Param>, name: Bytes, filename: Option<Bytes>)
    ensures DisposedAs(headers, name, filename) <==>
              && |ValuesOf(headers, DISPOSITION)| == 1
              && Disposition(ValuesOf(headers, DISPOSITION)[0]) == Read(Some(name), filename)
  {
    if DisposedAs(headers, name, filename) {
      var i :| DisposedAt(headers, i, name, filename);
      SoleValue(headers, "content-disposition", i);
    } else if |ValuesOf(headers, DISPOSITION)| == 1 {
      if Disposition(ValuesOf(headers, DISPOSITION)[0]) == Read(Some(name), filename) {
        OneDisposition(headers, name, filename);
      }
    }
  }

  /** A part is taken exactly if it names itself, is not too long, and, as a file, finds room and can be stored. */
  lemma TakenExactly(part: Bytes, limits: Limits, given: Given, form: Form)
    ensures var r := AddPart(part, limits, given, form);
            && (r.Ok? <==> FitsAsField(part, limits, given)
                           || (FitsAsFile(part, limits, given) && |form.files| < limits.maxFiles && given.spools(|form.files|)))
            && (r.Ok? ==> |r.form.files| == |form.files| + (if NamesFile(part, given) then 1 else 0))
            && !(FitsAsField(part, limits, given) && NamesFile(part, given))
            && (r == Err(Internal) ==> FitsAsFile(part, limits, given) && !given.spools(|form.files|))
            && (r == Err(TooLarge) ==> given.section(part) == TooMany || |form.files| >= limits.maxFiles
                                       || |given.section(part).content| > Min(limits.maxFieldSize, limits.maxFileSize))
  {
    hide DisposedAs, Disposition, ValuesOf;
    if given.section(part).Complete? {
      var headers := given.section(part).headers;
      forall name, filename
        ensures DisposedAs(headers, name, filename) <==>
                  && |ValuesOf(headers, DISPOSITION)| == 1
                  && Disposition(ValuesOf(headers, DISPOSITION)[0]) == Read(Some(name), filename)
      {
        DisposedOnce(headers, name, filename);
      }
    }
  }

  /** A part list is accepted exactly if no limit is passed, every part can be taken, and every file can be stored. */
  lemma {:induction false} AcceptedExactly(parts: seq<Bytes>, limits: Limits, given: Given, form: Form)
    requires Count(form) <= limits.maxParts && |form.files| <= limits.maxFiles
    ensures AddAll(parts, limits, given, form).Ok? <==>
              && Count(form) + |parts| <= limits.maxParts
              && |form.files| + FileCount(parts, given) <= limits.maxFiles
              && (forall p | p in parts :: FitsAsField(p, limits, given) || FitsAsFile(p, limits, given))
              && (forall n | |form.files| <= n < |form.files| + FileCount(parts, given) :: given.spools(n))
    decreases |parts|
  {
    hide FitsAsField, FitsAsFile, NamesFile, AddPart;
    if parts != [] {
      var r := CountAndAdd(parts[0], limits, given, form);
      TakenExactly(parts[0], limits, given, form);
      FileFits(parts[0], limits, given);
      if r.Ok? {
        OneEach(parts[0], limits, given, form);
        AcceptedExactly(parts[1..], limits, given, r.form);
        assert parts == [parts[0]] + parts[1..];
      }
    }
  }

  lemma FileFits(part: Bytes, limits: Limits, given: Given)
    ensures FitsAsFile(part, limits, given) ==> NamesFile(part, given)
  {
  }

  lemma OneEach(part: Bytes, limits: Limits, given: Given, form: Form)
    requires AddPart(part, limits, given, form).Ok?
    ensures Count(AddPart(part, limits, given, form).form) == Count(form) + 1
  {
  }

  /** What a sender puts into one part. */
  datatype Item =
    | Simple(name: Bytes, value: Bytes)
    | Upload(name: Bytes, filename: Bytes, mediaType: Option<Bytes>, content: Bytes)

  function HeadersOf(item: Item): seq<Param>
  {
    var kind := Ascii("form-data");
    match item
    case Simple(name, _) => [Param(DISPOSITION, kind + Format([Param(NAME, name)]))]
    case Upload(name, filename, mediaType, _) =>
      [Param(DISPOSITION, kind + Format([Param(NAME, name), Param(FILENAME, filename)]))]
      + if mediaType.Some? then [Param(MEDIA_TYPE, mediaType.value)] else []
  }

  function ContentOf(item: Item): Bytes
  {
    if item.Simple? then item.value else item.content
  }

  /** The part is read, by the header parser, as this item. */
  predicate Carries(part: Bytes, item: Item, given: Given)
  {
    given.section(part) == Complete(HeadersOf(item), ContentOf(item))
  }

  /** The form of a list of items: the texts and the uploads, each in order. */
  function FormOfItems(items: seq<Item>): Form
  {
    if items == [] then EMPTY
    else
      var form, item := FormOfItems(items[..|items| - 1]), items[|items| - 1];
      match item
      case Simple(name, value) => form.(fields := form.fields + [Field(name, value, HeadersOf(item))])
      case Upload(name, filename, mediaType, content) =>
        form.(files := form.files + [File(name, filename, mediaType, HeadersOf(item), content)])
  }

  predicate Fits(item: Item, limits: Limits)
  {
    && item.name != []
    && (item.Upload? ==> item.mediaType != Some([]))
    && |ContentOf(item)| <= if item.Simple? then limits.maxFieldSize else limits.maxFileSize
  }

  lemma ItemHeaders(item: Item)
    requires item.Upload? ==> item.mediaType != Some([])
    ensures ValuesOf(HeadersOf(item), DISPOSITION) == [HeadersOf(item)[0].value]
    ensures Disposition(HeadersOf(item)[0].value) ==
            Read(Some(item.name), if item.Simple? then None else Some(item.filename))
    ensures MediaType(HeadersOf(item)) == if item.Simple? then None else item.mediaType
  {
    hide ValuesOf, Disposition, Format;
    NoSemicolon();
    NameAndFilenameRoundTrip(Ascii("form-data"), item.name, if item.Simple? then [] else item.filename);
    var headers := HeadersOf(item);
    TwoHeaders(headers[0], if |headers| == 2 then headers[1] else Param(MEDIA_TYPE, []));
    assert |headers| == 1 ==> headers == [headers[0]];
    assert |headers| == 2 ==> headers == [headers[0], headers[1]];
  }

  lemma TwoHeaders(a: Param, b: Param)
    requires a.key == DISPOSITION && b.key == MEDIA_TYPE
    ensures ValuesOf([a], DISPOSITION) == [a.value] && ValuesOf([a], MEDIA_TYPE) == []
    ensures ValuesOf([a, b], DISPOSITION) == [a.value] && ValuesOf([a, b], MEDIA_TYPE) == [b.value]
  {
    HeadersApart();
    ValuesOfAppend([a], [b], DISPOSITION);
    ValuesOfAppend([a], [b], MEDIA_TYPE);
    assert [a] + [b] == [a, b];
  }

  lemma HeadersApart()
    ensures !SameIgnoringCase(DISPOSITION, MEDIA_TYPE) && !SameIgnoringCase(MEDIA_TYPE, DISPOSITION)
  {
    assert |Lower(DISPOSITION)| != |Lower(MEDIA_TYPE)|;
  }

  lemma NoSemicolon()
    ensures SEMICOLON !in Ascii("form-data")
  {
  }

  lemma ItemIsAdded(part: Bytes, item: Item, limits: Limits, given: Given, form: Form)
    requires Carries(part, item, given) && Fits(item, limits)
    requires item.Upload? ==> |form.files| < limits.maxFiles && given.spools(|form.files|)
    ensures AddPart(part, limits, given, form) ==
            Ok(if item.Simple? then form.(fields := form.fields + [Field(item.name, item.value, HeadersOf(item))])
               else form.(files := form.files + [File(item.name, item.filename, item.mediaType, HeadersOf(item), item.content)]))
  {
    hide ValuesOf, Disposition, HeadersOf, MediaType;
    ItemHeaders(item);
  }

  lemma {:induction false} ItemsAreAdded(parts: seq<Bytes>, items: seq<Item>, limits: Limits, given: Given, n: nat)
    requires |parts| == |items| <= limits.maxParts && n <= |parts|
    requires forall i | 0 <= i < |parts| :: Carries(parts[i], items[i], given) && Fits(items[i], limits)
    requires |FormOfItems(items).files| <= limits.maxFiles && forall k | 0 <= k < |FormOfItems(items).files| :: given.spools(k)
    ensures AddAll(parts[n..], limits, given, FormOfItems(items[..n])) == Ok(FormOfItems(items))
    decreases |parts| - n
  {
    hide HeadersOf, Carries, Fits, AddPart;
    FilesGrow(items, n);
    if n == |parts| {
      assert parts[n..] == [] && items[..n] == items;
    } else {
      assert parts[n..][1..] == parts[n + 1..] && items[..n + 1][..n] == items[..n];
      FilesGrow(items, n + 1);
      CountItems(items[..n]);
      ItemIsAdded(parts[n], items[n], limits, given, FormOfItems(items[..n]));
      ItemsAreAdded(parts, items, limits, given, n + 1);
    }
  }

  lemma {:induction false} CountItems(items: seq<Item>)
    ensures Count(FormOfItems(items)) == |items|
    decreases |items|
  {
    hide HeadersOf;
    if items != [] {
      CountItems(items[..|items| - 1]);
    }
  }

  lemma {:induction false} FilesGrow(items: seq<Item>, n: nat)
    requires n <= |items|
    ensures |FormOfItems(items[..n]).files| <= |FormOfItems(items).files|
    decreases |items| - n
  {
    hide HeadersOf;
    if n < |items| {
      assert items[..n + 1][..n] == items[..n];
      FilesGrow(items, n + 1);
    } else {
      assert items[..n] == items;
    }
  }

  /** End to end: items within the limits, each in a clean part behind the headers that a sender writes for it, come
      out of the written body as these very fields and files, with their names, values, types and order. */
  lemma WrittenItemsComeBack(parts: seq<Bytes>, items: seq<Item>, delim: Bytes, limits: Limits, given: Given)
    requires Delim(delim) && AllClean(parts, delim)
    requires |parts| == |items| <= limits.maxParts
    requires forall i | 0 <= i < |parts| :: Carries(parts[i], items[i], given) && Fits(items[i], limits)
    requires |FormOfItems(items).files| <= limits.maxFiles && forall k | 0 <= k < |FormOfItems(items).files| :: given.spools(k)
    ensures FormOf(Encode(parts, delim), delim, limits, given) == Ok(FormOfItems(items))
  {
    hide FormOf, Encode, AllClean, Delim, FormOfItems;
    FormRoundTrip(parts, delim, limits, given);
    ItemsAreAdded(parts, items, limits, given, 0);
    assert parts[0..] == parts;
    NoItems(items);
  }

  lemma NoItems(items: seq<Item>)
    ensures FormOfItems(items[..0]) == EMPTY
  {
  }

  /** The same of any body that is accepted: it splits, and its form holds the parts. */
  lemma AcceptedBodyHoldsItsParts(body: Bytes, delim: Bytes, limits: Limits, given: Given)
    requires |delim| > 0 && FormOf(body, delim, limits, given).Ok?
    ensures Parts(body, delim).Some?
    ensures Holds(FormOf(body, delim, limits, given).form, Parts(body, delim).value, given)
  {
    hide FormOf, Parts, Holds;
    FormIsFold(body, delim, limits, given);
    FormHoldsItsParts(Parts(body, delim).value, limits, given);
  }
}
