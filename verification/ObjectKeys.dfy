/** Object keys: how uploads build them and how the orphan collector reads them back. */
module ObjectKeys {
  import Text
  import opened Wrappers

  datatype FileKind = Original | Thumbnail

  datatype Class = Originals | Generated | Thumbnails

  datatype BackendKey = BackendKey(tenant: string, project: string, asset: string, kind: FileKind)

  const EXTENSIONS: set<string> := {"jpg", "png", "webp"}

  function KeyOf(tenant: string, project: string, asset: string, file: string): string {
    "tenants/" + tenant + "/projects/" + project + "/assets/" + asset + "/" + file
  }

  function ObjectKey(tenant: string, project: string, asset: string, ext: string): string {
    KeyOf(tenant, project, asset, "original." + ext)
  }

  function ThumbnailKey(tenant: string, project: string, asset: string): string {
    KeyOf(tenant, project, asset, "thumbnail.jpg")
  }

  function ParseFile(file: string): Option<FileKind> {
    if file in {"original.jpg", "original.png", "original.webp"} then Some(Original)
    else if file == "thumbnail.jpg" then Some(Thumbnail)
    else None
  }

  function ParseParts(parts: seq<string>): Option<BackendKey> {
    if |parts| != 7 then None
    else if parts[0] != "tenants" || parts[2] != "projects" || parts[4] != "assets" then None
    else if parts[1] == "" || parts[3] == "" || parts[5] == "" then None
    else if ParseFile(parts[6]) == None then None
    else Some(BackendKey(parts[1], parts[3], parts[5], ParseFile(parts[6]).value))
  }

  function ParseBackendObjectKey(key: string): Option<BackendKey> {
    ParseParts(Text.Split(Text.TrimSpace(key), '/'))
  }

  predicate ClassMatches(bucket: Class, kind: FileKind) {
    match bucket
    case Thumbnails => kind == Thumbnail
    case _ => kind == Original
  }

  /** An id usable as one segment of a key. */
  predicate Segment(s: string) {
    s != "" && '/' !in s
  }

  function Parts(tenant: string, project: string, asset: string, file: string): seq<string> {
    ["tenants", tenant, "projects", project, "assets", asset, file]
  }

  /** The slash-separated parts of a key, joined from the back. */
  lemma JoinKey(tenant: string, project: string, asset: string, file: string)
    ensures Text.Join(Parts(tenant, project, asset, file), '/') == KeyOf(tenant, project, asset, file)
  {
    var inAsset := ["assets", asset] + [file];
    var inProject := ["projects", project] + inAsset;
    JoinPair("assets", asset, [file]);
    JoinPair("projects", project, inAsset);
    JoinPair("tenants", tenant, inProject);
    assert ["tenants", tenant] + inProject == Parts(tenant, project, asset, file);
    KeyInSteps(tenant, project, asset, file);
  }

  lemma {:induction false} JoinPair(name: string, id: string, rest: seq<string>)
    requires rest != []
    ensures Text.Join([name, id] + rest, '/') == Under(name, id, Text.Join(rest, '/'))
  {
    assert ([name, id] + rest)[1..] == [id] + rest && ([id] + rest)[1..] == rest;
    assert name + "/" + (id + "/" + Text.Join(rest, '/')) == Under(name, id, Text.Join(rest, '/'));
  }

  /** What lies below a named id. */
  function Under(name: string, id: string, rest: string): string {
    name + "/" + id + "/" + rest
  }

  lemma KeyInSteps(tenant: string, project: string, asset: string, file: string)
    ensures Under("tenants", tenant, Under("projects", project, Under("assets", asset, file)))
      == KeyOf(tenant, project, asset, file)
  {
    var project', asset' := Under("projects", project, Under("assets", asset, file)), Under("assets", asset, file);
    assert "/assets/" + asset + "/" + file == "/" + asset';
    assert "/projects/" + project + "/" + asset' == "/" + project';
  }

  lemma SplitKey(tenant: string, project: string, asset: string, file: string)
    requires '/' !in tenant && '/' !in project && '/' !in asset && '/' !in file
    ensures Text.Split(KeyOf(tenant, project, asset, file), '/') == Parts(tenant, project, asset, file)
  {
    JoinKey(tenant, project, asset, file);
    Text.SplitJoin(Parts(tenant, project, asset, file), '/');
  }

  lemma KeyIsTrimmed(tenant: string, project: string, asset: string, file: string)
    requires file != "" && !Text.IsSpace(file[|file| - 1])
    ensures Text.Trimmed(KeyOf(tenant, project, asset, file))
  {
    var key := KeyOf(tenant, project, asset, file);
    assert key[0] == 't';
    assert key[|key| - 1] == file[|file| - 1];
  }

  /** Round trip: the key an upload builds parses back into its ids. */
  lemma ParseObjectKey(tenant: string, project: string, asset: string, ext: string)
    requires Segment(tenant) && Segment(project) && Segment(asset) && ext in EXTENSIONS
    ensures ParseBackendObjectKey(ObjectKey(tenant, project, asset, ext))
      == Some(BackendKey(tenant, project, asset, Original))
    ensures Text.TrimSpace(ObjectKey(tenant, project, asset, ext)) == ObjectKey(tenant, project, asset, ext)
  {
    var file := "original." + ext;
    if ext == "jpg" {
      assert file == "original.jpg";
    } else if ext == "png" {
      assert file == "original.png";
    } else {
      assert file == "original.webp";
    }
    SplitKey(tenant, project, asset, file);
    KeyIsTrimmed(tenant, project, asset, file);
  }

  lemma ParseThumbnailKey(tenant: string, project: string, asset: string)
    requires Segment(tenant) && Segment(project) && Segment(asset)
    ensures ParseBackendObjectKey(ThumbnailKey(tenant, project, asset))
      == Some(BackendKey(tenant, project, asset, Thumbnail))
    ensures Text.TrimSpace(ThumbnailKey(tenant, project, asset)) == ThumbnailKey(tenant, project, asset)
  {
    var file := "thumbnail.jpg";
    SplitKey(tenant, project, asset, file);
    KeyIsTrimmed(tenant, project, asset, file);
  }

  /** Only such keys parse: trimmed, a recognized key is the one its ids build. */
  lemma ParsedKeyIsBuilt(key: string)
    requires ParseBackendObjectKey(key).Some?
    ensures var k := ParseBackendObjectKey(key).value;
      && Segment(k.tenant) && Segment(k.project) && Segment(k.asset)
      && (k.kind == Thumbnail ==> Text.TrimSpace(key) == ThumbnailKey(k.tenant, k.project, k.asset))
      && (k.kind == Original ==>
        exists ext :: ext in EXTENSIONS && Text.TrimSpace(key) == ObjectKey(k.tenant, k.project, k.asset, ext))
  {
    var parts := Text.Split(Text.TrimSpace(key), '/');
    var k := ParseBackendObjectKey(key).value;
    var file := parts[6];
    assert parts == Parts(k.tenant, k.project, k.asset, file);
    Text.JoinSplit(Text.TrimSpace(key), '/');
    JoinKey(k.tenant, k.project, k.asset, file);
    if k.kind == Original {
      var ext := OriginalExtension(file);
      assert Text.TrimSpace(key) == ObjectKey(k.tenant, k.project, k.asset, ext);
    }
  }

  lemma OriginalExtension(file: string) returns (ext: string)
    requires ParseFile(file) == Some(Original)
    ensures ext in EXTENSIONS && file == "original." + ext
  {
    ext := if file == "original.jpg" then "jpg" else if file == "original.png" then "png" else "webp";
  }
}
