/**
 * `getRemoteValveTag`: the identity of the remote bundle. An entity tag, else a
 * modification timestamp from a HEAD probe of the bundle, else the trimmed text of
 * the `valve.version` sidecar, else `null`. Every failure falls through; nothing throws.
 */
module Version {
  import opened Common

  /** Outcome of `fetch('valve.zip', { method: 'HEAD' })`; a header is `None` when absent. */
  datatype Probe =
    | ProbeRejected
    | ProbeResponse(status: int, etag: Option<string>, lastModified: Option<string>)

  /** Outcome of `fetch('valve.version')`; `text` is `None` when reading the body rejects. */
  datatype Sidecar =
    | SidecarRejected
    | SidecarResponse(status: int, text: Option<string>)

  /** The characters `String.prototype.trim` removes: ECMAScript WhiteSpace and LineTerminator. */
  predicate IsSpace(c: char) {
    || ('\U{0009}' <= c <= '\U{000D}')            // tab, line feed, vertical tab, form feed, carriage return
    || c == ' ' || c == '\U{00A0}' || c == '\U{1680}'
    || ('\U{2000}' <= c <= '\U{200A}')
    || c == '\U{2028}' || c == '\U{2029}' || c == '\U{202F}' || c == '\U{205F}'
    || c == '\U{3000}' || c == '\U{FEFF}'
  }

  /** The first index at or after `i` that does not hold white space, or `|s|`. */
  function SkipSpaces(s: string, i: nat): (j: nat)
    requires i <= |s|
    ensures i <= j <= |s|
    ensures forall k :: i <= k < j ==> IsSpace(s[k])
    ensures j < |s| ==> !IsSpace(s[j])
    decreases |s| - i
  {
    if i < |s| && IsSpace(s[i]) then SkipSpaces(s, i + 1) else i
  }

  /** The end of `s[lo..j]` once its trailing white space is cut off. */
  function CutSpaces(s: string, lo: nat, j: nat): (i: nat)
    requires lo <= j <= |s|
    ensures lo <= i <= j
    ensures forall k :: i <= k < j ==> IsSpace(s[k])
    ensures i > lo ==> !IsSpace(s[i - 1])
  {
    if j > lo && IsSpace(s[j - 1]) then CutSpaces(s, lo, j - 1) else j
  }

  /** How much leading white space `s` carries. */
  function Leading(s: string): nat
    ensures Leading(s) <= |s|
  {
    SkipSpaces(s, 0)
  }

  /**
   * `String.prototype.trim`: a slice of the input that has no white space at either
   * end, and everything cut off on either side is white space.
   */
  function Trim(s: string): (r: string)
    ensures Leading(s) + |r| <= |s|
    ensures r == s[Leading(s)..Leading(s) + |r|]
    ensures forall k :: 0 <= k < Leading(s) ==> IsSpace(s[k])
    ensures forall k :: Leading(s) + |r| <= k < |s| ==> IsSpace(s[k])
    ensures r != [] ==> !IsSpace(r[0]) && !IsSpace(r[|r| - 1])
  {
    var a := Leading(s);
    s[a..CutSpaces(s, a, |s|)]
  }

  /** A JavaScript string is truthy when it is present and non-empty. */
  predicate Truthy(s: Option<string>) {
    s.Some? && s.value != ""
  }

  /** Step (a): a validator from the probe's headers, entity tag first. */
  function FromProbe(probe: Probe): Option<string> {
    match probe
    case ProbeRejected => None
    case ProbeResponse(status, etag, lastModified) =>
      if !StatusOk(status) then None
      else if Truthy(etag) then etag
      else if Truthy(lastModified) then lastModified
      else None
  }

  /** Step (b): `(await r.text()).trim() || null`. */
  function FromSidecar(sidecar: Sidecar): Option<string> {
    match sidecar
    case SidecarRejected => None
    case SidecarResponse(status, text) =>
      if !StatusOk(status) || text.None? then None
      else
        var t := Trim(text.value);
        if t == "" then None else Some(t)
  }

  function ResolveRemoteTag(probe: Probe, sidecar: Sidecar): (tag: Option<string>)
    ensures tag.Some? ==> tag.value != ""
  {
    var fromProbe := FromProbe(probe);
    if fromProbe.Some? then fromProbe else FromSidecar(sidecar)
  }

  // ----- properties -----

  /** The trimmed text is empty exactly when the text is all white space. */
  lemma TrimEmptyIffAllSpace(s: string)
    ensures Trim(s) == [] <==> forall k :: 0 <= k < |s| ==> IsSpace(s[k])
  {
    if forall k :: 0 <= k < |s| ==> IsSpace(s[k]) {
      assert Leading(s) == |s|;
    }
  }

  /** A non-empty entity tag on an ok probe wins over everything else. */
  lemma PrefersEntityTag(probe: Probe, sidecar: Sidecar)
    requires probe.ProbeResponse? && StatusOk(probe.status) && Truthy(probe.etag)
    ensures ResolveRemoteTag(probe, sidecar) == probe.etag
  {
  }

  /** Without an entity tag, a non-empty last-modified header wins over the sidecar. */
  lemma ThenLastModified(probe: Probe, sidecar: Sidecar)
    requires probe.ProbeResponse? && StatusOk(probe.status)
    requires !Truthy(probe.etag) && Truthy(probe.lastModified)
    ensures ResolveRemoteTag(probe, sidecar) == probe.lastModified
  {
  }

  /** A probe that rejects, fails or carries neither header defers to the sidecar. */
  lemma ThenSidecar(probe: Probe, sidecar: Sidecar)
    requires probe.ProbeRejected? || !StatusOk(probe.status)
          || (!Truthy(probe.etag) && !Truthy(probe.lastModified))
    ensures ResolveRemoteTag(probe, sidecar) == FromSidecar(sidecar)
  {
  }

  /**
   * The sidecar yields its trimmed text, and `null` exactly when that text is all
   * white space, the request rejects, its status is not ok or its body cannot be read.
   */
  lemma SidecarTag(sidecar: Sidecar)
    ensures FromSidecar(sidecar).None? <==>
      || sidecar.SidecarRejected?
      || !StatusOk(sidecar.status)
      || sidecar.text.None?
      || (forall k :: 0 <= k < |sidecar.text.value| ==> IsSpace(sidecar.text.value[k]))
    ensures FromSidecar(sidecar).Some? ==> FromSidecar(sidecar).value == Trim(sidecar.text.value)
  {
    if sidecar.SidecarResponse? && sidecar.text.Some? {
      TrimEmptyIffAllSpace(sidecar.text.value);
    }
  }

  /** When every step fails the result is `null`; the resolver has no error outcome. */
  lemma AllFailuresGiveNull(probe: Probe, sidecar: Sidecar)
    requires FromProbe(probe).None?
    requires sidecar.SidecarRejected? || !StatusOk(sidecar.status) || sidecar.text.None?
    ensures ResolveRemoteTag(probe, sidecar).None?
  {
  }

  /** A failed probe and a sidecar holding "v7" with a trailing newline resolve to "v7". */
  lemma SidecarScenario()
    ensures ResolveRemoteTag(ProbeRejected, SidecarResponse(200, Some("v7\n"))) == Some("v7")
  {
    var s := "v7\n";
    assert Leading(s) == 0;
    assert CutSpaces(s, 0, 2) == 2;
    assert CutSpaces(s, 0, 3) == 2;
    assert s[0..2] == "v7";
  }
}
