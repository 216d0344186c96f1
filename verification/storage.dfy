/**
 * Object storage as the components address it: `gs://bucket/path` URIs built
 * with `rstrip('/')` and an f-string, and taken apart with
 * `replace("gs://", "").partition("/")`. The store itself is a map from
 * location to table; what a component writes is returned as an `Upload`.
 */
module Storage {
  import opened Text
  import opened Tables

  const Scheme := "gs://"

  datatype Location = Location(bucket: string, path: string)

  /** What a component stores: a table at a location. */
  datatype Upload = Upload(at: Location, rows: Table)

  /** The objects a component can download. */
  type Store = map<Location, Table>

  /** `f"{bucket_uri.rstrip('/')}/{path}"`. */
  function JoinUri(bucketUri: string, path: string): (uri: string)
    ensures |uri| > |path| && uri[|uri| - |path| - 1] == '/' && uri[|uri| - |path|..] == path
  {
    RStrip(bucketUri, '/') + "/" + path
  }

  /** `bucket, _, path = uri.replace("gs://", "").partition("/")`. */
  function SplitUri(uri: string): (loc: Location)
    ensures '/' !in loc.bucket
  {
    var p := Partition(RemoveAll(uri, Scheme), '/');
    Location(p.head, p.tail)
  }

  /** The characters Cloud Storage allows in a bucket name. */
  predicate IsBucketChar(c: char)
  {
    'a' <= c <= 'z' || '0' <= c <= '9' || c == '-' || c == '_' || c == '.'
  }

  predicate IsBucketName(name: string)
  {
    name != [] && forall i :: 0 <= i < |name| ==> IsBucketChar(name[i])
  }

  /**
   * Splitting a URI built by `JoinUri` gives back the bucket and the path,
   * provided `gs://` occurs nowhere after the scheme (so `replace` removes only
   * the scheme) and the bucket holds no `/` (so `partition` cuts after it).
   */
  lemma SplitJoinRoundTrip(bucketUri: string, name: string, path: string)
    requires RStrip(bucketUri, '/') == Scheme + name
    requires '/' !in name
    requires !Occurs(name + "/" + path, Scheme)
    ensures SplitUri(JoinUri(bucketUri, path)) == Location(name, path)
  {
    var rest := name + "/" + path;
    var uri := JoinUri(bucketUri, path);
    assert uri == Scheme + rest;
    assert RemoveAll(uri, Scheme) == rest by {
      RemoveAllLeading(Scheme, rest);
      RemoveAllAbsent(rest, Scheme);
    }
    assert Partition(rest, '/') == Partitioned(name, "/", path) by {
      PartitionAt(name, '/', path);
    }
  }

  /**
   * The round trip for the URIs the pipeline builds: a well-formed bucket name
   * and a path without `:` (every occurrence of `gs://` holds a `:`).
   */
  lemma SplitJoinBucket(bucketUri: string, name: string, path: string)
    requires RStrip(bucketUri, '/') == Scheme + name
    requires IsBucketName(name)
    requires ':' !in path
    ensures SplitUri(JoinUri(bucketUri, path)) == Location(name, path)
  {
    BucketNameChars(name);
    ColonFreeJoin(name, path);
    AbsentCharAbsentPattern(name + "/" + path, Scheme, 2);
    SplitJoinRoundTrip(bucketUri, name, path);
  }

  /** A bucket name holds neither `/` nor `:`. */
  lemma BucketNameChars(name: string)
    requires IsBucketName(name)
    ensures '/' !in name && ':' !in name
  {
    forall i | 0 <= i < |name| ensures name[i] != '/' && name[i] != ':' {
      assert IsBucketChar(name[i]);
    }
  }

  /** Joining two texts without `:` by `/` gives a text without `:`. */
  lemma ColonFreeJoin(a: string, b: string)
    requires ':' !in a && ':' !in b
    ensures ':' !in a + "/" + b
  {
    var t := a + "/" + b;
    forall i | 0 <= i < |t| ensures t[i] != ':' {
      if i < |a| {
        assert t[i] == a[i];
      } else if i > |a| {
        assert t[i] == b[i - |a| - 1];
      }
    }
  }

  /** Why the round trip needs its precondition: a path holding `gs://` loses it. */
  lemma SchemeInPathIsRemoved()
    ensures SplitUri(JoinUri("gs://b", "gs://x")) == Location("b", "x")
  {
    var uri := JoinUri("gs://b", "gs://x");
    var afterScheme := "b/gs://x";
    assert uri == Scheme + afterScheme;
    RemoveAllLeading(Scheme, afterScheme);
    assert afterScheme[..5] != Scheme by { assert afterScheme[0] != Scheme[0]; }
    assert RemoveAll(afterScheme, Scheme) == "b" + RemoveAll("/gs://x", Scheme) by {
      assert afterScheme[1..] == "/gs://x";
    }
    assert ("/gs://x")[..5] != Scheme by { assert ("/gs://x")[0] != Scheme[0]; }
    assert RemoveAll("/gs://x", Scheme) == "/" + RemoveAll("gs://x", Scheme) by {
      assert ("/gs://x")[1..] == "gs://x";
    }
    RemoveAllLeading(Scheme, "x");
    assert "gs://x" == Scheme + "x";
    assert RemoveAll(uri, Scheme) == "b/x";
    PartitionAt("b", '/', "x");
    assert "b/x" == "b" + ['/'] + "x";
  }
}
