/**
 * The extracted bundle directory and the path rules of `unzip_bundle`,
 * `inject_policy` and `zip_bundle`. The directory tree is a map from paths
 * relative to the bundle directory to file contents; the proxy-endpoint
 * document is kept in its parsed form.
 */
module BundleFiles {
  import opened Wrappers
  import opened FlowDocument
  import opened FlowCallout

  const POLICIES_DIR: string := "apiproxy/policies/"
  const PROXY_DOCUMENT: string := "apiproxy/proxies/default.xml"
  const XML_EXT: string := ".xml"
  const ZIP_EXT: string := ".zip"

  /** Where `inject_policy` writes the policy `name`, relative to the bundle directory. */
  function PolicyPath(name: string): (p: string)
    ensures |p| == |POLICIES_DIR| + |name| + |XML_EXT|
    ensures p[..|POLICIES_DIR|] == POLICIES_DIR && p[|POLICIES_DIR|..|POLICIES_DIR| + |name|] == name
  {
    POLICIES_DIR + name + XML_EXT
  }

  /** Distinct policy names are written to distinct files, and never over the proxy document. */
  lemma PolicyPathInjective(a: string, b: string)
    ensures PolicyPath(a) == PolicyPath(b) <==> a == b
    ensures PolicyPath(a) != PROXY_DOCUMENT
  {
    if PolicyPath(a) == PolicyPath(b) {
      assert |a| == |b|;
      assert a == PolicyPath(a)[|POLICIES_DIR|..|POLICIES_DIR| + |a|];
    }
    assert PolicyPath(a)[10] == POLICIES_DIR[10] != PROXY_DOCUMENT[10];
  }

  /** The files after `inject_policy` writes the FlowCallout policy `fc` that calls the shared flow `sf`. */
  function CalloutWritten(files: map<string, string>, fc: string, sf: string): map<string, string> {
    files[PolicyPath(fc) := FlowCalloutTemplate(fc, sf)]
  }

  /** The policy file just written reads back as `fc` calling `sf`. */
  lemma CalloutReadsBack(files: map<string, string>, fc: string, sf: string)
    requires '"' !in fc
    ensures PolicyPath(fc) in CalloutWritten(files, fc, sf)
    ensures ParseFlowCallout(CalloutWritten(files, fc, sf)[PolicyPath(fc)]) == Some((fc, sf))
  {
    FlowCalloutRoundTrip(fc, sf);
  }

  /** Writing the policy `fc` leaves the file of every other policy as it was. */
  lemma CalloutKeepsOthers(files: map<string, string>, fc: string, sf: string, other: string)
    requires other != fc && PolicyPath(other) in files
    ensures PolicyPath(other) in CalloutWritten(files, fc, sf)
    ensures CalloutWritten(files, fc, sf)[PolicyPath(other)] == files[PolicyPath(other)]
  {
    PolicyPathInjective(fc, other);
  }

  /** The working copy of one bundle: its parsed proxy document and every other file. */
  class BundleDir {
    var proxy: Endpoint
    var files: map<string, string>

    constructor (proxy: Endpoint, files: map<string, string>)
      ensures this.proxy == proxy && this.files == files
    {
      this.proxy := proxy;
      this.files := files;
    }

    /** `inject_policy`: write (or silently overwrite) the policy file `name`. */
    method InjectPolicy(name: string, content: string)
      modifies this
      ensures files == old(files)[PolicyPath(name) := content]
      ensures proxy == old(proxy)
    {
      files := files[PolicyPath(name) := content];
    }
  }

  /** The index of the last `c` in `s[..end]`, or -1. */
  function LastIndexBefore(s: string, c: char, end: nat): (i: int)
    requires end <= |s|
    ensures -1 <= i < end
    ensures i >= 0 ==> s[i] == c
    ensures forall k :: i < k < end ==> s[k] != c
  {
    if end == 0 then -1
    else if s[end - 1] == c then end - 1
    else LastIndexBefore(s, c, end - 1)
  }

  /** `str.rfind(c)`: the index of the last occurrence of `c` in `s`, or -1. */
  function RFind(s: string, c: char): (i: int)
    ensures -1 <= i < |s|
  {
    LastIndexBefore(s, c, |s|)
  }

  /** The search below `end` only looks at `s[..end]`. */
  lemma {:induction false} LastIndexBeforePrefix(s: string, t: string, c: char, end: nat)
    requires end <= |s| && end <= |t| && s[..end] == t[..end]
    ensures LastIndexBefore(s, c, end) == LastIndexBefore(t, c, end)
  {
    if end > 0 {
      assert s[end - 1] == s[..end][end - 1] == t[..end][end - 1] == t[end - 1];
      assert s[..end - 1] == s[..end][..end - 1];
      assert t[..end - 1] == t[..end][..end - 1];
      LastIndexBeforePrefix(s, t, c, end - 1);
    }
  }

  /** Whether `p[from..to]` holds a character other than '.'. */
  predicate HasNonDot(p: string, from: int, to: int)
    requires 0 <= from && to <= |p|
  {
    exists k :: from <= k < to && p[k] != '.'
  }

  /**
   * `os.path.splitext` on POSIX paths: split at the last '.' of the last path
   * component, unless every character before it in that component is a dot.
   */
  function SplitExt(p: string): (r: (string, string))
    ensures r.0 + r.1 == p
    ensures r.1 == [] || (r.1[0] == '.' && '.' !in r.1[1..] && '/' !in r.1)
  {
    var sepIndex := RFind(p, '/');
    var dotIndex := RFind(p, '.');
    if dotIndex > sepIndex && HasNonDot(p, sepIndex + 1, dotIndex) then
      assert p[..dotIndex] + p[dotIndex..] == p;
      (p[..dotIndex], p[dotIndex..])
    else (p, [])
  }

  /** `unzip_bundle`: the directory an archive is extracted to. */
  function ExtractPath(bundlePath: string, extractPath: Option<string>): string {
    if extractPath.Some? && extractPath.value != [] then extractPath.value else SplitExt(bundlePath).0
  }

  /** `zip_bundle`: the path it returns, and the file `shutil.make_archive` actually writes. */
  function ZipReturnedPath(bundleDir: string, outputZipPath: Option<string>): string {
    if outputZipPath.Some? && outputZipPath.value != [] then outputZipPath.value else bundleDir + ZIP_EXT
  }

  function ZipWrittenPath(bundleDir: string, outputZipPath: Option<string>): string {
    SplitExt(ZipReturnedPath(bundleDir, outputZipPath)).0 + ZIP_EXT
  }

  /** Appending ".zip" moves the last '.' to the start of the suffix and leaves the last '/' where it was. */
  lemma RFindAppendZip(name: string)
    ensures RFind(name + ZIP_EXT, '.') == |name|
    ensures RFind(name + ZIP_EXT, '/') == RFind(name, '/')
  {
    var p := name + ZIP_EXT;
    var n := |name|;
    assert p[n] == '.' && p[n + 1] == 'z' && p[n + 2] == 'i' && p[n + 3] == 'p';
    assert p[..n] == name[..n];
    LastIndexBeforePrefix(p, name, '/', n);
  }

  /**
   * A name whose last component is not made of dots alone loses exactly its
   * ".zip" suffix: `unzip_bundle("./api.zip")` extracts to "./api", and
   * `zip_bundle(d, "api.zip")` writes the file it returns.
   */
  lemma SplitZipName(name: string)
    requires HasNonDot(name, RFind(name, '/') + 1, |name|)
    ensures SplitExt(name + ZIP_EXT) == (name, ZIP_EXT)
    ensures ExtractPath(name + ZIP_EXT, None) == name
    ensures ZipWrittenPath("", Some(name + ZIP_EXT)) == ZipReturnedPath("", Some(name + ZIP_EXT))
  {
    var p := name + ZIP_EXT;
    RFindAppendZip(name);
    var k :| RFind(name, '/') + 1 <= k < |name| && name[k] != '.';
    assert p[k] == name[k];
    assert (p[..|name|], p[|name|..]) == (name, ZIP_EXT);
  }

  /**
   * `zip_bundle` returns the path it was given, but `make_archive` always
   * writes a ".zip" file: for "out.tar" the archive is "out.zip".
   */
  lemma ZipReturnedPathCanDiffer()
    ensures ZipWrittenPath("b", Some("out.tar")) == "out.zip"
    ensures ZipReturnedPath("b", Some("out.tar")) == "out.tar"
  {
    var p := "out.tar";
    assert RFind(p, '.') == 3 && RFind(p, '/') == -1 by {
      assert p[3] == '.' && p[4] != '.' && p[5] != '.' && p[6] != '.';
    }
    assert p[0] != '.';
  }
}
