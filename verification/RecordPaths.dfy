/** Record paths as text: the fields of a path can be read back from it, which is what lets the other
    modules treat a path as its fields. */
module RecordPaths {
  import opened RuntimeRecords
  import opened Texts

  const BASE: string := "releases/runtime/v1"

  function SourceName(d: Distribution): string {
    if d.Pypi? then "pypi" else "binary"
  }

  function PathText(d: Distribution, version: string, releaseId: string): string {
    BASE + "/" + (SourceName(d) + "/" + ("releases" + "/" + (version + "/" + (releaseId + ".json"))))
  }

  /** Two texts with slash-free heads agree exactly when heads and tails do. */
  lemma HeadsAgree(a: string, x: string, b: string, y: string)
    requires IsSlashFree(a) && IsSlashFree(b)
    ensures a + "/" + x == b + "/" + y <==> a == b && x == y
  {
    var s, t := a + "/" + x, b + "/" + y;
    if s == t {
      assert s[|a|] == '/' && t[|b|] == '/';
      assert s[..|a|] == a && t[..|b|] == b;
      assert forall i :: 0 <= i < |a| ==> s[i] == a[i];
      assert forall i :: 0 <= i < |b| ==> t[i] == b[i];
      assert |a| == |b|;
      assert s[|a| + 1..] == x && t[|b| + 1..] == y;
    }
  }

  lemma TailsAgree(prefix: string, x: string, y: string)
    ensures prefix + "/" + x == prefix + "/" + y <==> x == y
  {
    if prefix + "/" + x == prefix + "/" + y {
      assert (prefix + "/" + x)[|prefix| + 1..] == x && (prefix + "/" + y)[|prefix| + 1..] == y;
    }
  }

  lemma SuffixesAgree(x: string, y: string)
    ensures x + ".json" == y + ".json" <==> x == y
  {
    if x + ".json" == y + ".json" {
      assert (x + ".json")[..|x|] == x && (y + ".json")[..|y|] == y;
    }
  }

  /** Records with slash-free versions share a path exactly when distribution, version and release id
      are the same. */
  lemma PathTextIsInjective(d: Distribution, version: string, id: string, d': Distribution, version': string,
                            id': string)
    requires IsSlashFree(version) && IsSlashFree(version')
    ensures PathText(d, version, id) == PathText(d', version', id') <==> d == d' && version == version' && id == id'
  {
    var inner, inner' := version + "/" + (id + ".json"), version' + "/" + (id' + ".json");
    TailsAgree(BASE, SourceName(d) + "/" + ("releases" + "/" + inner),
        SourceName(d') + "/" + ("releases" + "/" + inner'));
    HeadsAgree(SourceName(d), "releases" + "/" + inner, SourceName(d'), "releases" + "/" + inner');
    TailsAgree("releases", inner, inner');
    HeadsAgree(version, id + ".json", version', id' + ".json");
    SuffixesAgree(id, id');
  }
}
