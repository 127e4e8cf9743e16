/** Kubernetes volume ids to EBS volume ids (pkg/aws/util.go) and GetVolumeIDs (pkg/aws/core.go). */
module VolumeId {
  import opened Wrappers
  import opened Text

  const PREFIX := "aws://"
  const EBS_DRIVER := "ebs.csi.aws.com"

  /** The parts of a URI reference (section 3 of RFC 3986) after the aws scheme. */
  datatype Uri = Uri(authority: string, path: string, query: string, fragment: string)

  /** Whether net/url accepts an authority and a fragment; both checks belong to that library. */
  datatype UrlLibrary = UrlLibrary(authorityParses: string -> bool, fragmentParses: string -> bool)

  predicate IsControl(c: char) {
    c < ' ' || c == 0x7f as char
  }

  /** Splits what follows the scheme and the two slashes. */
  function SplitUri(rest: string): Uri {
    var hierarchy := Before(Before(rest, '#'), '?');
    var authority := Before(hierarchy, '/');
    var path := hierarchy[|authority|..];
    Uri(authority, path, After(Before(rest, '#'), '?'), After(rest, '#'))
  }

  predicate IsHex(c: char) {
    '0' <= c <= '9' || 'a' <= c <= 'f' || 'A' <= c <= 'F'
  }

  function HexValue(c: char): (v: int)
    requires IsHex(c)
    ensures 0 <= v < 16
  {
    if c <= '9' then (c - '0') as int
    else if c <= 'F' then (c - 'A') as int + 10
    else (c - 'a') as int + 10
  }

  /** Percent-decoding of a path; None when an escape is malformed. */
  function Unescape(s: string): Option<string> {
    if s == "" then Some("")
    else if s[0] == '%' then
      if |s| < 3 || !IsHex(s[1]) || !IsHex(s[2]) then None
      else
        match Unescape(s[3..])
        case None => None
        case Some(t) => Some([(16 * HexValue(s[1]) + HexValue(s[2])) as char] + t)
    else
      match Unescape(s[1..])
      case None => None
      case Some(t) => Some([s[0]] + t)
  }

  /** url.Parse of an aws:// string, reduced to the decoded path the driver uses. */
  function ParsedPath(kubernetesID: string, lib: UrlLibrary): Option<string>
    requires PREFIX <= kubernetesID
  {
    var uri := SplitUri(kubernetesID[|PREFIX|..]);
    var beforeFragment := Before(kubernetesID, '#');
    if exists i | 0 <= i < |beforeFragment| :: IsControl(beforeFragment[i]) then None
    else if !lib.authorityParses(uri.authority) || !lib.fragmentParses(uri.fragment) then None
    else Unescape(uri.path)
  }

  /** ^vol-[^/]*$ */
  predicate IsEbsVolume(s: string) {
    "vol-" <= s && '/' !in s
  }

  /** kubernetesVolumeIDToEBSVolumeID; None stands for each of its errors. */
  function Normalise(kubernetesID: string, lib: UrlLibrary): Option<string> {
    if !(PREFIX <= kubernetesID) then Some(kubernetesID)
    else
      match ParsedPath(kubernetesID, lib)
      case None => None
      case Some(path) =>
        var awsID := TrimSlashes(path);
        if IsEbsVolume(awsID) then Some(awsID) else None
  }

  /** No character that is special to URI parsing: escape, query, fragment or control. */
  predicate PlainPath(s: string) {
    forall c :: c in s ==> c !in {'%', '?', '#'} && !IsControl(c)
  }

  /** No slash either. */
  predicate Plain(s: string) {
    PlainPath(s) && '/' !in s
  }

  lemma {:induction false} UnescapePlain(s: string)
    requires '%' !in s
    ensures Unescape(s) == Some(s)
  {
    if s != "" {
      assert s[0] in s;
      UnescapePlain(s[1..]);
      assert [s[0]] + s[1..] == s;
    }
  }

  lemma SplitPlainUri(zone: string, id: string)
    requires Plain(zone) && PlainPath(id)
    ensures SplitUri(zone + "/" + id) == Uri(zone, "/" + id, "", "")
  {
    var rest := zone + "/" + id;
    BeforeFree(rest, '#');
    BeforeFree(rest, '?');
    assert rest == zone + ['/'] + id;
    BeforeConcat(zone, '/', id);
    assert rest[|zone|..] == "/" + id;
  }

  function SchemeID(zone: string, id: string): (s: string)
    ensures PREFIX <= s && s[|PREFIX|..] == zone + "/" + id
    ensures |s| == |PREFIX| + |zone| + 1 + |id|
    ensures forall i :: 0 <= i < |PREFIX| ==> s[i] == PREFIX[i]
    ensures forall i :: 0 <= i < |zone| ==> s[|PREFIX| + i] == zone[i]
    ensures s[|PREFIX| + |zone|] == '/'
    ensures forall i :: 0 <= i < |id| ==> s[|PREFIX| + |zone| + 1 + i] == id[i]
  {
    "aws://" + zone + "/" + id
  }

  /** Nothing in such an id is a control character or starts a fragment. */
  lemma SchemeIDIsClean(zone: string, id: string, i: nat)
    requires Plain(zone) && PlainPath(id) && i < |SchemeID(zone, id)|
    ensures !IsControl(SchemeID(zone, id)[i]) && SchemeID(zone, id)[i] != '#'
  {
    var k := i - |PREFIX|;
    if i < |PREFIX| {
      assert SchemeID(zone, id)[i] == PREFIX[i];
    } else if k < |zone| {
      assert SchemeID(zone, id)[|PREFIX| + k] == zone[k] && zone[k] in zone;
    } else if k > |zone| {
      var j := k - |zone| - 1;
      assert SchemeID(zone, id)[|PREFIX| + |zone| + 1 + j] == id[j] && id[j] in id;
    }
  }

  lemma SchemePath(zone: string, id: string, lib: UrlLibrary)
    requires Plain(zone) && PlainPath(id)
    ensures ParsedPath(SchemeID(zone, id), lib)
         == if lib.authorityParses(zone) && lib.fragmentParses("") then Some("/" + id) else None
  {
    var k := SchemeID(zone, id);
    forall i | 0 <= i < |k| ensures !IsControl(k[i]) && k[i] != '#' {
      SchemeIDIsClean(zone, id, i);
    }
    BeforeFree(k, '#');
    SplitPlainUri(zone, id);
    UnescapePlain("/" + id);
  }

  lemma TrimPlainPath(id: string)
    requires IsEbsVolume(id)
    ensures TrimSlashes("/" + id) == id
  {
  }

  lemma SchemeForm(zone: string, id: string, lib: UrlLibrary)
    requires IsEbsVolume(id) && Plain(id) && Plain(zone)
    requires lib.authorityParses(zone) && lib.fragmentParses("")
    ensures Normalise("aws://" + zone + "/" + id, lib) == Some(id)
  {
    SchemePath(zone, id, lib);
    TrimPlainPath(id);
  }

  /** All three documented forms of one volume id mean that id, for every plain zone the library accepts. */
  lemma DocumentedFormsAgree(zone: string, id: string, lib: UrlLibrary)
    requires IsEbsVolume(id) && Plain(id) && Plain(zone)
    requires lib.authorityParses(zone) && lib.authorityParses("") && lib.fragmentParses("")
    ensures Normalise("aws://" + zone + "/" + id, lib) == Some(id)
    ensures Normalise("aws:///" + id, lib) == Some(id)
    ensures Normalise(id, lib) == Some(id)
  {
    SchemeForm(zone, id, lib);
    SchemeForm("", id, lib);
    assert "aws://" + "" + "/" + id == "aws:///" + id;
    assert id[0] == 'v' && PREFIX[0] == 'a';
  }

  /** The slashes around what is between them count for nothing. */
  ghost predicate Wraps(path: string, a: string, id: string, b: string) {
    AllSlashes(a) && AllSlashes(b) && path == a + id + b
  }

  /**
   * The ids with the prefix and a plain path, exactly: the library accepts the zone, and the path is a volume id
   * between slashes, which is the result.
   */
  lemma PrefixedIff(zone: string, path: string, id: string, lib: UrlLibrary)
    requires Plain(zone) && PlainPath(path)
    ensures Normalise("aws://" + zone + "/" + path, lib) == Some(id) <==>
              && lib.authorityParses(zone) && lib.fragmentParses("")
              && "vol-" <= id && '/' !in id && exists a, b :: Wraps(path, a, id, b)
  {
    SchemePath(zone, path, lib);
    TrimSlashesSlash(path);
    if a, b :| Wraps(path, a, id, b) && "vol-" <= id && '/' !in id {
      assert id[0] == 'v' && id[|id| - 1] in id;
      TrimBetween(a, id, b);
    }
    if TrimSlashes(path) == id {
      var a, b := TrimSlashesMeans(path);
      assert Wraps(path, a, id, b);
    }
  }

  /** A control character before the fragment, or an escape without two hex digits in the path: an error. */
  lemma MalformedIsRefused(k: string, i: nat, front: string, back: string, lib: UrlLibrary)
    requires PREFIX <= k && i < |k|
    requires ((k[i] < 0x20 as char || k[i] == 0x7f as char) && '#' !in k[..i])
          || (SplitUri(k[|PREFIX|..]).path == front + "%" + back && '%' !in front && !EscapeBody(back))
    ensures Normalise(k, lib) == None
  {
    if IsControl(k[i]) && '#' !in k[..i] {
      BeforeReaches(k, '#', i);
    } else {
      UnescapeMalformed(front, back);
    }
  }

  predicate EscapeBody(s: string) {
    |s| >= 2 && s[0] in "0123456789abcdefABCDEF" && s[1] in "0123456789abcdefABCDEF"
  }

  lemma {:induction false} UnescapeMalformed(front: string, back: string)
    requires '%' !in front && !EscapeBody(back)
    ensures Unescape(front + "%" + back) == None
  {
    var s := front + "%" + back;
    if front == "" {
      assert s[1..] == back;
      HexDigits();
    } else {
      assert front[0] in front && s[1..] == front[1..] + "%" + back;
      UnescapeMalformed(front[1..], back);
    }
  }

  lemma HexDigits()
    ensures forall c :: IsHex(c) ==> c in "0123456789abcdefABCDEF"
  {
    forall c | IsHex(c) ensures c in "0123456789abcdefABCDEF" {
      var k: nat := if c <= '9' then (c - '0') as int
                    else if c >= 'a' then 10 + (c - 'a') as int
                    else 16 + (c - 'A') as int;
      assert "0123456789abcdefABCDEF"[k] == c;
    }
  }

  /** Whatever the function returns, it returns unchanged when asked again. */
  lemma NormaliseFixedPoint(kubernetesID: string, lib: UrlLibrary)
    requires Normalise(kubernetesID, lib).Some?
    ensures Normalise(Normalise(kubernetesID, lib).value, lib) == Normalise(kubernetesID, lib)
  {
    if PREFIX <= kubernetesID {
      assert Normalise(kubernetesID, lib).value[0] == 'v' && PREFIX[0] == 'a';
    }
  }

  /**
   * The documentation promises results of the form vol-...; the code checks this only behind the
   * aws:// prefix, so it holds exactly for prefixed ids and for ids that had the form already.
   */
  lemma ResultIsEbsVolumeIff(kubernetesID: string, lib: UrlLibrary)
    requires Normalise(kubernetesID, lib).Some?
    ensures IsEbsVolume(Normalise(kubernetesID, lib).value) <==> PREFIX <= kubernetesID || IsEbsVolume(kubernetesID)
  {
  }

  /** Each character as a percent escape. */
  function Escape(s: string): string
    requires forall i :: 0 <= i < |s| ==> s[i] < 256 as char
  {
    if s == "" then "" else "%" + [HexDigit(s[0] as int / 16), HexDigit(s[0] as int % 16)] + Escape(s[1..])
  }

  function HexDigit(v: int): char
    requires 0 <= v < 16
  {
    if v < 10 then '0' + v as char else 'a' + (v - 10) as char
  }

  /** Unescaping undoes escaping, so an escaped path is read as what it stands for. */
  lemma {:induction false} UnescapeEscaped(s: string)
    requires forall i :: 0 <= i < |s| ==> s[i] < 256 as char
    ensures Unescape(Escape(s)) == Some(s)
  {
    if s != "" {
      UnescapeEscaped(s[1..]);
      UnescapeOne(s[0], Escape(s[1..]), s[1..]);
      assert [s[0]] + s[1..] == s;
    }
  }

  lemma HexRoundTrip(v: int)
    requires 0 <= v < 16
    ensures IsHex(HexDigit(v)) && HexValue(HexDigit(v)) == v
  {
  }

  /** Upper-case digits mean the same. */
  lemma UpperCaseHex(v: int)
    requires 10 <= v < 16
    ensures var upper := 'A' + (v - 10) as char; IsHex(upper) && HexValue(upper) == v
  {
  }

  lemma UnescapeOne(c: char, rest: string, unescaped: string)
    requires c < 256 as char && Unescape(rest) == Some(unescaped)
    ensures Unescape("%" + [HexDigit(c as int / 16), HexDigit(c as int % 16)] + rest) == Some([c] + unescaped)
  {
    var hi, lo := c as int / 16, c as int % 16;
    var e := "%" + [HexDigit(hi), HexDigit(lo)] + rest;
    HexRoundTrip(hi);
    HexRoundTrip(lo);
    assert e[0] == '%' && e[1] == HexDigit(hi) && e[2] == HexDigit(lo) && e[3..] == rest;
    assert 16 * hi + lo == c as int;
  }

  /** An id with query and fragment. */
  function LongForm(zone: string, id: string, query: string, fragment: string): (s: string)
    ensures PREFIX <= s && s[|PREFIX|..] == zone + "/" + id + "?" + query + "#" + fragment
  {
    SchemeID(zone, id) + "?" + query + "#" + fragment
  }

  lemma LongFormSplits(zone: string, id: string, query: string, fragment: string)
    requires Plain(id) && Plain(zone) && Plain(query)
    ensures SplitUri(zone + "/" + id + "?" + query + "#" + fragment) == Uri(zone, "/" + id, query, fragment)
  {
    var front, path := zone + "/" + id + "?" + query, zone + "/" + id;
    var rest := front + "#" + fragment;
    assert rest == front + ['#'] + fragment;
    BeforeConcat(front, '#', fragment);
    assert front == path + ['?'] + query;
    BeforeConcat(path, '?', query);
    SplitPlainUri(zone, id);
    BeforeFree(path, '#');
    BeforeFree(path, '?');
  }

  lemma LongFormIsClean(zone: string, id: string, query: string, fragment: string)
    requires Plain(id) && Plain(zone) && Plain(query)
    ensures Before(LongForm(zone, id, query, fragment), '#') == SchemeID(zone, id) + "?" + query
    ensures var front := SchemeID(zone, id) + "?" + query; forall i :: 0 <= i < |front| ==> !IsControl(front[i])
  {
    var front, k := SchemeID(zone, id) + "?" + query, SchemeID(zone, id);
    forall i | 0 <= i < |front| ensures !IsControl(front[i]) && front[i] != '#' {
      if i < |k| {
        SchemeIDIsClean(zone, id, i);
        assert front[i] == k[i];
      } else if i > |k| {
        assert front[i] == query[i - |k| - 1] && query[i - |k| - 1] in query;
      }
    }
    BeforeConcat(front, '#', fragment);
    assert LongForm(zone, id, query, fragment) == front + ['#'] + fragment;
  }

  /** A query and a fragment change nothing, if the library accepts the fragment; if it does not, the id is refused. */
  lemma QueryAndFragmentIgnored(zone: string, id: string, query: string, fragment: string, lib: UrlLibrary)
    requires IsEbsVolume(id) && Plain(id) && Plain(zone) && Plain(query)
    ensures Normalise(LongForm(zone, id, query, fragment), lib)
         == if lib.authorityParses(zone) && lib.fragmentParses(fragment) then Some(id) else None
  {
    LongFormPath(zone, id, query, fragment, lib);
    TrimPlainPath(id);
  }

  lemma LongFormPath(zone: string, id: string, query: string, fragment: string, lib: UrlLibrary)
    requires Plain(id) && Plain(zone) && Plain(query)
    ensures ParsedPath(LongForm(zone, id, query, fragment), lib)
         == if lib.authorityParses(zone) && lib.fragmentParses(fragment) then Some("/" + id) else None
  {
    LongFormSplits(zone, id, query, fragment);
    LongFormIsClean(zone, id, query, fragment);
    UnescapePlain("/" + id);
    var front := SchemeID(zone, id) + "?" + query;
    ParsedFrom(LongForm(zone, id, query, fragment), front, zone, "/" + id, query, fragment, lib);
  }

  lemma ParsedFrom(k: string, front: string, authority: string, path: string, query: string, fragment: string,
                   lib: UrlLibrary)
    requires PREFIX <= k && SplitUri(k[|PREFIX|..]) == Uri(authority, path, query, fragment) && Before(k, '#') == front
    requires (forall i :: 0 <= i < |front| ==> !IsControl(front[i])) && Unescape(path) == Some(path)
    ensures ParsedPath(k, lib)
         == if lib.authorityParses(authority) && lib.fragmentParses(fragment) then Some(path) else None
  {
  }

  /** One id that is returned without having the form. */
  lemma BareIDIsUnchecked(lib: UrlLibrary)
    ensures Normalise("disk", lib) == Some("disk") && !IsEbsVolume("disk")
  {
    assert "disk"[0] != PREFIX[0];
  }

  datatype CsiSource = CsiSource(driver: string, volumeHandle: string)

  /** The volume sources of a PersistentVolumeSpec that the driver looks at. */
  datatype PVSpec = PVSpec(ebsVolumeID: Option<string>, csi: Option<CsiSource>)

  /** The volume id of one PV spec, if it has one on this provider; a nil spec has none. */
  function VolumeOf(spec: Option<PVSpec>, lib: UrlLibrary): Option<string> {
    match spec
    case None => None
    case Some(PVSpec(Some(id), _)) => Normalise(id, lib)
    case Some(PVSpec(None, Some(csi))) =>
      if csi.driver == EBS_DRIVER && csi.volumeHandle != "" then Some(csi.volumeHandle) else None
    case Some(PVSpec(None, None)) => None
  }

  /**
   * Which volume a spec stands for: an EBS source decides alone, by its translated id; of the CSI volumes only
   * those of the EBS driver count, by their handle unless it is empty.
   */
  lemma VolumeOfMeans(spec: PVSpec, lib: UrlLibrary)
    ensures VolumeOf(None, lib) == None
    ensures spec.ebsVolumeID.Some? ==> VolumeOf(Some(spec), lib) == Normalise(spec.ebsVolumeID.value, lib)
    ensures spec.ebsVolumeID.None? ==>
              (VolumeOf(Some(spec), lib).Some? <==>
                 spec.csi.Some? && spec.csi.value.driver == "ebs.csi.aws.com" && spec.csi.value.volumeHandle != "")
    ensures spec.ebsVolumeID.None? && VolumeOf(Some(spec), lib).Some? ==>
              VolumeOf(Some(spec), lib).value == spec.csi.value.volumeHandle
  {
  }

  /** The specs that have a volume id, in order. */
  function WithVolume(specs: seq<Option<PVSpec>>, lib: UrlLibrary): seq<Option<PVSpec>> {
    if specs == [] then []
    else
      var rest := WithVolume(specs[..|specs| - 1], lib);
      if VolumeOf(specs[|specs| - 1], lib).Some? then rest + [specs[|specs| - 1]] else rest
  }

  method GetVolumeIDs(pvSpecs: seq<Option<PVSpec>>, lib: UrlLibrary) returns (volumeIDs: seq<string>)
    ensures |volumeIDs| == |WithVolume(pvSpecs, lib)|
    ensures forall i :: 0 <= i < |volumeIDs| ==> VolumeOf(WithVolume(pvSpecs, lib)[i], lib) == Some(volumeIDs[i])
  {
    volumeIDs := [];
    for n := 0 to |pvSpecs|
      invariant |volumeIDs| == |WithVolume(pvSpecs[..n], lib)|
      invariant forall i :: 0 <= i < |volumeIDs| ==>
                  VolumeOf(WithVolume(pvSpecs[..n], lib)[i], lib) == Some(volumeIDs[i])
    {
      assert pvSpecs[..n + 1][..n] == pvSpecs[..n];
      var spec := pvSpecs[n];
      if spec.Some? {
        if spec.value.ebsVolumeID.Some? {
          var volumeID := Normalise(spec.value.ebsVolumeID.value, lib);
          if volumeID.None? {
            continue;
          }
          volumeIDs := volumeIDs + [volumeID.value];
        } else if spec.value.csi.Some? && spec.value.csi.value.driver == EBS_DRIVER
               && spec.value.csi.value.volumeHandle != "" {
          volumeIDs := volumeIDs + [spec.value.csi.value.volumeHandle];
        }
      }
    }
    assert pvSpecs[..|pvSpecs|] == pvSpecs;
  }

  /** A spec is selected exactly when it has a volume. */
  lemma WithVolumeOne(spec: Option<PVSpec>, lib: UrlLibrary)
    ensures WithVolume([spec], lib) == if VolumeOf(spec, lib).Some? then [spec] else []
  {
    assert [spec][..0] == [];
  }

  /** WithVolume is an order-preserving filter: it distributes over concatenation. */
  lemma {:induction false} WithVolumeConcat(a: seq<Option<PVSpec>>, b: seq<Option<PVSpec>>, lib: UrlLibrary)
    ensures WithVolume(a + b, lib) == WithVolume(a, lib) + WithVolume(b, lib)
  {
    if b == [] {
      assert a + b == a;
    } else {
      assert (a + b)[..|a + b| - 1] == a + b[..|b| - 1];
      WithVolumeConcat(a, b[..|b| - 1], lib);
    }
  }
}
