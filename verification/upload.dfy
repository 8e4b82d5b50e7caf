/** The upload filter: only spreadsheet files are accepted for ingestion. */
module Upload {
  import opened Wrappers
  import opened Text

  /** The extensions the application accepts, compared in lower case. */
  const AllowedExtensions: set<string> := {"xlsx", "xls"}

  /** Position of the last '.' in `f`, if there is one. */
  function LastDot(f: string): (r: Option<nat>)
    ensures r.None? ==> forall j :: 0 <= j < |f| ==> f[j] != '.'
    ensures r.Some? ==> r.value < |f| && f[r.value] == '.'
    ensures r.Some? ==> forall j :: r.value < j < |f| ==> f[j] != '.'
  {
    if f == [] then None
    else if f[|f| - 1] == '.' then Some(|f| - 1)
    else LastDot(f[..|f| - 1])
  }

  /** `f.rsplit('.', 1)[1]` for a name that contains a dot. */
  function Extension(f: string): Option<string> {
    match LastDot(f)
    case None => None
    case Some(i) => Some(f[i + 1..])
  }

  /** The name has a dot and the text after the last dot, lower-cased, is an
      accepted spreadsheet extension. */
  function AllowedFile(f: string): (ok: bool)
    ensures ok <==> exists i :: && 0 <= i < |f| && f[i] == '.'
                                && (forall j :: i < j < |f| ==> f[j] != '.')
                                && Lower(f[i + 1..]) in AllowedExtensions
  {
    match Extension(f)
    case None => false
    case Some(e) => Lower(e) in AllowedExtensions
  }

  /** Upper-casing a file name does not change whether it is accepted. */
  lemma AllowedFileIgnoresCase(f: string)
    ensures AllowedFile(Upper(f)) == AllowedFile(f)
  {
    var u := Upper(f);
    assert forall j :: 0 <= j < |f| ==> (u[j] == '.' <==> f[j] == '.');
    forall k | 0 <= k <= |f|
      ensures Lower(u[k..]) == Lower(f[k..])
    {
      assert u[k..] == Upper(f[k..]);
      LowerOfUpper(f[k..]);
    }
  }

  /** The extension is the text after the dot that no other dot follows. */
  lemma ExtensionAt(f: string, i: nat)
    requires i < |f| && f[i] == '.'
    requires forall j :: i < j < |f| ==> f[j] != '.'
    ensures Extension(f) == Some(f[i + 1..])
  {
    var r := LastDot(f);
    assert r == Some(i);
  }
}
