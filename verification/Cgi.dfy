/** The CGI view of a request: unsafe field names are dropped, and each remaining field becomes one variable
    (section 4.1.18 of RFC 3875). */
module Cgi {
  import opened Basics
  import opened Metadata
  import opened MetadataLaws
  import opened Text

  const HTTP := Ascii("HTTP_")
  const LENGTH := Ascii("CONTENT_LENGTH")
  const SINGLETONS := [Ascii("authorization"), Ascii("proxy-authorization"), Ascii("content-type"),
                       Ascii("content-length"), Ascii("referer"), Ascii("from")]

  /** Letters, digits and dashes do not alias. */
  predicate Safe(name: Bytes)
  {
    forall i | 0 <= i < |name| :: 48 <= name[i] <= 57 || 65 <= name[i] <= 90 || 97 <= name[i] <= 122 || name[i] == 45
  }

  predicate LowerCase(name: Bytes)
  {
    forall i | 0 <= i < |name| :: !(65 <= name[i] <= 90)
  }

  /** A parsed header section: names in lower case, each once, each with at least one line. */
  predicate Parsed(headers: HeaderMap)
  {
    Distinct(headers) && forall f | f in headers :: LowerCase(f.name) && |f.values| > 0
  }

  function CgiByte(b: byte): byte
  {
    if b == 45 || b == 46 then 95 else if 97 <= b <= 122 then b - 32 else b
  }

  function Mangled(name: Bytes): (r: Bytes)
    ensures |r| == |name| && forall i | 0 <= i < |name| :: r[i] == CgiByte(name[i])
  {
    seq(|name|, i requires 0 <= i < |name| => CgiByte(name[i]))
  }

  function CgiName(name: Bytes): Bytes
  {
    HTTP + Mangled(name)
  }

  /** None for a field whose first line stands alone. */
  function Separator(name: Bytes): Option<Bytes>
  {
    if name in SINGLETONS then None
    else if name == Ascii("cookie") then Some(Ascii("; "))
    else Some(Ascii(", "))
  }

  function JoinLines(lines: seq<Bytes>, sep: Bytes): Bytes
    requires |lines| > 0
  {
    if |lines| == 1 then lines[0] else JoinLines(lines[..|lines| - 1], sep) + sep + lines[|lines| - 1]
  }

  /** The one value of a field. */
  function FieldValue(f: Field): Bytes
    requires |f.values| > 0
  {
    if Separator(f.name).None? then f.values[0] else JoinLines(f.values, Separator(f.name).value)
  }

  method JoinedField(f: Field) returns (value: Bytes)
    requires |f.values| > 0
    ensures value == FieldValue(f)
  {
    value := f.values[0];
    var sep := Separator(f.name);
    if sep.None? || |f.values| == 1 {
      return;
    }
    var i := 1;
    assert f.values[..1] == [f.values[0]];
    while i < |f.values|
      invariant 1 <= i <= |f.values|
      invariant value == JoinLines(f.values[..i], sep.value)
    {
      assert f.values[..i + 1][..i] == f.values[..i];
      value := value + sep.value + f.values[i];
      i := i + 1;
    }
    assert f.values[..i] == f.values;
  }

  /** Removing an entry moves the last one into its place. */
  function Removed(headers: HeaderMap, i: nat): HeaderMap
    requires i < |headers|
  {
    var n := |headers| - 1;
    if i == n then headers[..n] else headers[..n][i := headers[n]]
  }

  lemma RemovedFields(headers: HeaderMap, i: nat)
    requires i < |headers| && Distinct(headers)
    ensures Distinct(Removed(headers, i))
    ensures forall f :: f in Removed(headers, i) <==> f in headers && f.name != headers[i].name
  {
    var r, n := Removed(headers, i), |headers| - 1;
    forall f | f in headers && f.name != headers[i].name ensures f in r {
      var j :| 0 <= j < |headers| && headers[j] == f;
      assert if j == n then r[i] == f else r[j] == f;
    }
    forall f | f in r ensures f in headers && f.name != headers[i].name {
      var j :| 0 <= j < |r| && r[j] == f;
      var k := if j == i then n else j;
      assert headers[k] == f && k != i;
    }
  }

  method Remove(headers: HeaderMap, name: Bytes) returns (r: HeaderMap)
    requires Distinct(headers)
    ensures Distinct(r)
    ensures forall f :: f in r <==> f in headers && f.name != name
  {
    var i := 0;
    while i < |headers|
      invariant 0 <= i <= |headers|
      invariant forall j | 0 <= j < i :: headers[j].name != name
    {
      if headers[i].name == name {
        RemovedFields(headers, i);
        return Removed(headers, i);
      }
      i := i + 1;
    }
    r := headers;
  }

  /** Exactly the fields with safe names stay. */
  method DropUnsafeNames(headers: HeaderMap) returns (r: HeaderMap)
    requires Distinct(headers)
    ensures Distinct(r)
    ensures forall f :: f in r <==> f in headers && Safe(f.name)
  {
    var names: seq<Bytes> := [];
    var i := 0;
    while i < |headers|
      invariant 0 <= i <= |headers|
      invariant forall n :: n in names <==> !Safe(n) && exists j | 0 <= j < i :: headers[j].name == n
    {
      if !Safe(headers[i].name) {
        names := names + [headers[i].name];
      }
      i := i + 1;
    }
    r := headers;
    var k := 0;
    while k < |names|
      invariant 0 <= k <= |names|
      invariant Distinct(r)
      invariant forall f :: f in r <==> f in headers && f.name !in names[..k]
    {
      assert names[..k + 1] == names[..k] + [names[k]];
      r := Remove(r, names[k]);
      k := k + 1;
    }
    assert names[..k] == names;
    forall f | f in headers ensures f.name in names <==> !Safe(f.name) {
      var j :| 0 <= j < |headers| && headers[j] == f;
      assert headers[j].name == f.name;
    }
  }

  type Vars = map<Bytes, Bytes>

  /** Registration in order: a later value of a variable replaces an earlier one. */
  function Registered(headers: HeaderMap): Vars
    requires forall f | f in headers :: |f.values| > 0
  {
    if |headers| == 0 then map[]
    else
      var f := headers[|headers| - 1];
      Registered(headers[..|headers| - 1])[CgiName(f.name) := FieldValue(f)]
  }

  /** The content length goes first, where it is known. */
  function CgiVars(headers: HeaderMap, contentLength: Option<Bytes>): Vars
    requires forall f | f in headers :: |f.values| > 0
  {
    (if contentLength.Some? then map[LENGTH := contentLength.value] else map[]) + Registered(headers)
  }

  lemma RegisterNext(fixed: Vars, headers: HeaderMap, i: nat)
    requires i < |headers| && forall f | f in headers :: |f.values| > 0
    ensures (fixed + Registered(headers[..i]))[CgiName(headers[i].name) := FieldValue(headers[i])]
            == fixed + Registered(headers[..i + 1])
  {
    hide CgiName, FieldValue;
    assert headers[..i + 1][..i] == headers[..i];
  }

  /** Puts the variables one by one, each over whatever stood there. */
  method CgiHeaderVars(headers: HeaderMap, contentLength: Option<Bytes>) returns (vars: Vars)
    requires forall f | f in headers :: |f.values| > 0
    ensures vars == CgiVars(headers, contentLength)
  {
    var fixed: Vars := if contentLength.Some? then map[LENGTH := contentLength.value] else map[];
    vars := fixed;
    var i := 0;
    assert fixed + map[] == fixed;
    hide CgiName, FieldValue;
    while i < |headers|
      invariant 0 <= i <= |headers|
      invariant vars == fixed + Registered(headers[..i])
    {
      RegisterNext(fixed, headers, i);
      var value := JoinedField(headers[i]);
      vars := vars[CgiName(headers[i].name) := value];
      i := i + 1;
    }
    assert headers[..i] == headers;
  }

  /** Two fields meet in one variable. */
  predicate Alias(a: Field, b: Field)
  {
    CgiName(a.name) == CgiName(b.name)
  }

  predicate AliasFree(headers: HeaderMap)
  {
    forall i, j | 0 <= i < j < |headers| :: !Alias(headers[i], headers[j])
  }

  lemma SafeNamesDiffer(a: Bytes, b: Bytes)
    requires Safe(a) && Safe(b) && LowerCase(a) && LowerCase(b)
    ensures CgiName(a) == CgiName(b) <==> a == b
  {
    if CgiName(a) == CgiName(b) {
      assert Mangled(a) == CgiName(a)[|HTTP|..] == CgiName(b)[|HTTP|..] == Mangled(b);
      forall i | 0 <= i < |a| ensures a[i] == b[i] {
        assert CgiByte(a[i]) == Mangled(a)[i] == Mangled(b)[i] == CgiByte(b[i]);
      }
    }
  }

  lemma {:induction false} RegisteredNames(headers: HeaderMap, name: Bytes)
    requires forall f | f in headers :: |f.values| > 0
    ensures name in Registered(headers) <==> exists i | 0 <= i < |headers| :: CgiName(headers[i].name) == name
    ensures |Registered(headers)| <= |headers|
    decreases |headers|
  {
    hide FieldValue, CgiName, Mangled;
    if |headers| > 0 {
      var n := |headers| - 1;
      RegisteredNames(headers[..n], name);
      var before, key := Registered(headers[..n]), CgiName(headers[n].name);
      assert before[key := FieldValue(headers[n])].Keys == before.Keys + {key};
      if name in before {
        var i :| 0 <= i < n && CgiName(headers[..n][i].name) == name;
        assert CgiName(headers[i].name) == name;
      }
      if i :| 0 <= i < |headers| && CgiName(headers[i].name) == name {
        assert i < n ==> headers[..n][i] == headers[i];
      }
    }
  }

  /** Each field has a variable of its own exactly when no two names alias. */
  lemma {:induction false} OneVariableEach(headers: HeaderMap)
    requires forall f | f in headers :: |f.values| > 0
    ensures |Registered(headers)| == |headers| <==> AliasFree(headers)
    decreases |headers|
  {
    if |headers| > 0 {
      var n := |headers| - 1;
      var before, f := headers[..n], headers[n];
      var key := CgiName(f.name);
      OneVariableEach(before);
      RegisteredNames(before, key);
      var vars := Registered(before);
      assert vars[key := FieldValue(f)].Keys == vars.Keys + {key};
      if key in vars {
        var i :| 0 <= i < n && CgiName(before[i].name) == key;
        assert Alias(headers[i], headers[n]);
      } else {
        forall i | 0 <= i < n ensures !Alias(headers[i], f) {
          assert CgiName(before[i].name) != key;
        }
        AliasFreeSnoc(headers);
      }
    }
  }

  lemma AliasFreeSnoc(headers: HeaderMap)
    requires |headers| > 0
    requires forall i | 0 <= i < |headers| - 1 :: !Alias(headers[i], headers[|headers| - 1])
    ensures AliasFree(headers) <==> AliasFree(headers[..|headers| - 1])
  {
    var before := headers[..|headers| - 1];
    if AliasFree(headers) {
      forall i, j | 0 <= i < j < |before| ensures !Alias(before[i], before[j]) {
        assert !Alias(headers[i], headers[j]);
      }
    }
    if AliasFree(before) {
      forall i, j | 0 <= i < j < |headers| ensures !Alias(headers[i], headers[j]) {
        if j < |before| { assert !Alias(before[i], before[j]); }
      }
    }
  }

  lemma {:induction false} RegisteredValue(headers: HeaderMap, i: nat)
    requires forall f | f in headers :: |f.values| > 0
    requires AliasFree(headers) && i < |headers|
    ensures var key := CgiName(headers[i].name);
            key in Registered(headers) && Registered(headers)[key] == FieldValue(headers[i])
    decreases |headers|
  {
    var n := |headers| - 1;
    if i < n {
      var before := headers[..n];
      forall j, k | 0 <= j < k < |before| ensures !Alias(before[j], before[k]) {
        assert !Alias(headers[j], headers[k]);
      }
      RegisteredValue(before, i);
      assert !Alias(headers[i], headers[n]);
    }
  }

  lemma LengthIsNoField(name: Bytes)
    ensures CgiName(name) != LENGTH
  {
    assert CgiName(name)[0] == HTTP[0] == 72;
    assert LENGTH[0] == 67;
  }

  /** The main law: after the unsafe names are dropped, no field is lost in the CGI view, none replaces
      another, and the content length stays. */
  lemma NoFieldIsLost(headers: HeaderMap, contentLength: Option<Bytes>, f: Field)
    requires Parsed(headers) && f in headers
    requires forall g | g in headers :: Safe(g.name)
    ensures var vars := CgiVars(headers, contentLength);
            && CgiName(f.name) in vars && vars[CgiName(f.name)] == FieldValue(f)
            && (contentLength.Some? ==> LENGTH in vars && vars[LENGTH] == contentLength.value)
    ensures |Registered(headers)| == |headers|
  {
    forall i, j | 0 <= i < j < |headers| ensures !Alias(headers[i], headers[j]) {
      SafeNamesDiffer(headers[i].name, headers[j].name);
    }
    OneVariableEach(headers);
    var i :| 0 <= i < |headers| && headers[i] == f;
    RegisteredValue(headers, i);
    RegisteredNames(headers, LENGTH);
    forall j | 0 <= j < |headers| ensures CgiName(headers[j].name) != LENGTH {
      LengthIsNoField(headers[j].name);
    }
  }
}
