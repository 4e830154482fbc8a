/** What a multipart body means as a form: each part becomes a field or a file, within the limits. */
module Forms {
  import opened Basics
  import opened Dispositions
  import opened MultipartSpec
  import opened Text

  datatype Rejection = BadRequest | TooLarge | Internal

  /** What the header parser makes of a part; Complete holds the header lines and the content after them. */
  datatype Section = Complete(headers: seq<Param>, content: Bytes) | Partial | TooMany | Malformed

  datatype Field = Field(name: Bytes, value: Bytes, headers: seq<Param>)

  datatype File = File(name: Bytes, filename: Bytes, mediaType: Option<Bytes>, headers: seq<Param>, content: Bytes)

  datatype Form = Form(fields: seq<Field>, files: seq<File>)

  datatype Parsed = Ok(form: Form) | Err(rejection: Rejection)

  datatype Limits = Limits(maxFileSize: nat, maxFieldSize: nat, maxFiles: nat, maxParts: nat)

  /** The header parser, and whether the n-th file can be written to the spool directory. */
  datatype Given = Given(section: Bytes -> Section, spools: nat -> bool)

  /** The bytes that header lines take up, with one for each line's colon. */
  function Volume(headers: seq<Param>): nat
  {
    if |headers| == 0 then 0
    else Volume(headers[..|headers| - 1]) + |headers[|headers| - 1].key| + |headers[|headers| - 1].value| + 1
  }

  /** The header parser makes up nothing: its lines and the content are cut from the part. */
  ghost predicate Cuts(given: Given)
  {
    forall part :: given.section(part).Complete? ==>
                     Volume(given.section(part).headers) + |given.section(part).content| <= |part|
  }

  const DISPOSITION := Ascii("content-disposition")
  const MEDIA_TYPE := Ascii("content-type")

  const EMPTY := Form([], [])

  function Count(form: Form): nat
  {
    |form.fields| + |form.files|
  }

  /** The first content-type counts, and only when it says something. */
  function MediaType(headers: seq<Param>): Option<Bytes>
  {
    var types := ValuesOf(headers, MEDIA_TYPE);
    if types == [] || types[0] == [] then None else Some(types[0])
  }

  /** Which of the two a part becomes hangs on the filename parameter alone; its value does not matter. */
  function AddNamed(name: Bytes, filename: Option<Bytes>, mediaType: Option<Bytes>, headers: seq<Param>,
                    content: Bytes, limits: Limits, given: Given, form: Form): Parsed
  {
    match filename
    case Some(f) =>
      if |form.files| + 1 > limits.maxFiles then Err(TooLarge)
      else if |content| > limits.maxFileSize then Err(TooLarge)
      else if !given.spools(|form.files|) then Err(Internal)
      else Ok(form.(files := form.files + [File(name, f, mediaType, headers, content)]))
    case None =>
      if |content| > limits.maxFieldSize then Err(TooLarge)
      else Ok(form.(fields := form.fields + [Field(name, content, headers)]))
  }

  function AddPart(part: Bytes, limits: Limits, given: Given, form: Form): Parsed
  {
    match given.section(part)
    case Partial => Err(BadRequest)
    case Malformed => Err(BadRequest)
    case TooMany => Err(TooLarge)
    case Complete(headers, content) =>
      var dispositions := ValuesOf(headers, DISPOSITION);
      if |dispositions| != 1 then Err(BadRequest)
      else
        match Disposition(dispositions[0])
        case Refused => Err(BadRequest)
        case Read(name, filename) =>
          if name.None? || name.value == [] then Err(BadRequest)
          else AddNamed(name.value, filename, MediaType(headers), headers, content, limits, given, form)
  }

  function CountAndAdd(part: Bytes, limits: Limits, given: Given, form: Form): Parsed
  {
    if Count(form) + 1 > limits.maxParts then Err(TooLarge) else AddPart(part, limits, given, form)
  }

  /** Adds the parts in order; the first refusal ends it. */
  function AddAll(parts: seq<Bytes>, limits: Limits, given: Given, form: Form): Parsed
  {
    if parts == [] then Ok(form)
    else
      match CountAndAdd(parts[0], limits, given, form)
      case Err(why) => Err(why)
      case Ok(grown) => AddAll(parts[1..], limits, given, grown)
  }

  /** The form of the text from a part's start on. The part count is judged before the part is looked for. */
  ghost function FormFrom(body: Bytes, start: nat, delim: Bytes, limits: Limits, given: Given, form: Form): Parsed
    requires start <= |body| && |delim| > 0
    decreases |body| - start
  {
    if Count(form) + 1 > limits.maxParts then Err(TooLarge)
    else
      match Next(body, start, delim)
      case None => Err(BadRequest)
      case Some(hit) =>
        match AddPart(body[start..PartEnd(body, start, hit.lineStart)], limits, given, form)
        case Err(why) => Err(why)
        case Ok(grown) =>
          if hit.close then Ok(grown) else FormFrom(body, hit.after, delim, limits, given, grown)
  }

  ghost function FormOf(body: Bytes, delim: Bytes, limits: Limits, given: Given): Parsed
    requires |delim| > 0
  {
    match Next(body, 0, delim)
    case None => Err(BadRequest)
    case Some(hit) =>
      if hit.close then Ok(EMPTY) else FormFrom(body, hit.after, delim, limits, given, EMPTY)
  }

  /** When the body splits, the form is the fold over its parts. */
  lemma {:induction false} FormFromIsFold(body: Bytes, start: nat, delim: Bytes, limits: Limits, given: Given, form: Form)
    requires start <= |body| && |delim| > 0
    ensures var parts := PartsFrom(body, start, delim);
            var parsed := FormFrom(body, start, delim, limits, given, form);
            if parts.Some? then parsed == AddAll(parts.value, limits, given, form) else parsed.Err?
    decreases |body| - start
  {
    var hit := Next(body, start, delim);
    if hit.Some? {
      var part := body[start..PartEnd(body, start, hit.value.lineStart)];
      if hit.value.close {
        var one: seq<Bytes> := [part];
        assert one[1..] == [];
      } else {
        var grown := AddPart(part, limits, given, form);
        if grown.Ok? {
          FormFromIsFold(body, hit.value.after, delim, limits, given, grown.form);
        }
        var rest := PartsFrom(body, hit.value.after, delim);
        if rest.Some? {
          assert ([part] + rest.value)[1..] == rest.value;
        }
      }
    }
  }

  /** A body is accepted exactly when it splits into parts and the parts, added in order, are. */
  lemma FormIsFold(body: Bytes, delim: Bytes, limits: Limits, given: Given)
    requires |delim| > 0
    ensures var parts := Parts(body, delim);
            if parts.Some? then FormOf(body, delim, limits, given) == AddAll(parts.value, limits, given, EMPTY)
            else FormOf(body, delim, limits, given).Err?
  {
    var hit := Next(body, 0, delim);
    if hit.Some? {
      if !hit.value.close {
        FormFromIsFold(body, hit.value.after, delim, limits, given, EMPTY);
      }
    }
  }

  predicate WithinLimits(form: Form, limits: Limits)
  {
    && Count(form) <= limits.maxParts
    && |form.files| <= limits.maxFiles
    && (forall f | f in form.fields :: f.name != [] && |f.value| <= limits.maxFieldSize)
    && (forall f | f in form.files :: f.name != [] && |f.content| <= limits.maxFileSize)
  }

  /** Every accepted form keeps every limit, and holds one entry for each part. */
  lemma {:induction false} AddAllKeepsLimits(parts: seq<Bytes>, limits: Limits, given: Given, form: Form)
    requires WithinLimits(form, limits)
    ensures var r := AddAll(parts, limits, given, form);
            r.Ok? ==> WithinLimits(r.form, limits) && Count(r.form) == Count(form) + |parts|
    decreases |parts|
  {
    if parts != [] {
      var r := CountAndAdd(parts[0], limits, given, form);
      if r.Ok? {
        AddAllKeepsLimits(parts[1..], limits, given, r.form);
      }
    }
  }
}
