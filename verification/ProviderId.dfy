/** Provider identifiers (pkg/aws/util.go): region and instance id behind an aws:/// prefix. */
module ProviderId {
  import opened Wrappers
  import opened Text

  function Encode(region: string, instanceID: string): string {
    "aws:///" + region + "/" + instanceID
  }

  function Decode(id: string): Result<(string, string)> {
    var parts := Split(id, '/');
    if |parts| < 2 then Err(InvalidArgument)
    else Ok((parts[|parts| - 2], parts[|parts| - 1]))
  }

  /** A prefix that ends where a path segment starts. */
  predicate SegmentBoundary(prefix: string) {
    prefix == "" || prefix[|prefix| - 1] == '/'
  }

  /** Decoding returns the last two segments, whatever stands before them. */
  lemma DecodeLastSegments(prefix: string, a: string, b: string)
    requires SegmentBoundary(prefix) && '/' !in a && '/' !in b
    ensures Decode(prefix + a + "/" + b) == Ok((a, b))
  {
    var s := prefix + a + "/" + b;
    SplitFree(a, '/');
    SplitFree(b, '/');
    SplitConcat(prefix + a, '/', b);
    assert s == (prefix + a) + ['/'] + b;
    if prefix == "" {
      assert prefix + a == a;
    } else {
      var head := prefix[..|prefix| - 1];
      assert prefix + a == head + ['/'] + a;
      SplitConcat(head, '/', a);
    }
  }

  /** Decoding fails exactly on slash-free input; otherwise the parts are slash-free and end the input. */
  lemma DecodeShape(s: string) returns (prefix: string)
    ensures Decode(s).Err? <==> '/' !in s
    ensures Decode(s).Ok? ==>
              var (a, b) := Decode(s).value;
              '/' !in a && '/' !in b && SegmentBoundary(prefix) && s == prefix + a + "/" + b
  {
    prefix := "";
    if '/' in s {
      var rest, b := SplitLast(s, '/');
      var a := rest;
      if '/' in rest {
        var head, last := SplitLast(rest, '/');
        prefix, a := head + "/", last;
        assert rest == prefix + a;
      }
      assert s == prefix + a + "/" + b;
      DecodeLastSegments(prefix, a, b);
    } else {
      SplitFree(s, '/');
    }
  }

  /** The round trip holds exactly for slash-free parts. */
  lemma RoundTrip(region: string, id: string)
    ensures Decode(Encode(region, id)) == Ok((region, id)) <==> '/' !in region && '/' !in id
  {
    if '/' !in region && '/' !in id {
      DecodeLastSegments("aws:///", region, id);
    } else {
      var _ := DecodeShape(Encode(region, id));
    }
  }

  /** The id comes back exactly when it is slash-free, whatever the region. */
  lemma LastPartIff(region: string, id: string)
    ensures Encode(region, id) != "" && Decode(Encode(region, id)).Ok?
    ensures Decode(Encode(region, id)).value.1 == id <==> '/' !in id
  {
    var _ := DecodeShape(Encode(region, id));
    assert Encode(region, id)[0] == 'a' && Encode(region, id)[4] == '/';
    if '/' !in id {
      var front := "aws:///" + region;
      assert Encode(region, id) == front + ['/'] + id;
      SplitConcat(front, '/', id);
      SplitFree(id, '/');
    }
  }

  /** An id with slashes of its own decodes to its own last two segments: the region is lost. */
  lemma SlashedIdLosesRegion(region: string, id: string)
    requires '/' in id
    ensures Decode(id).Ok? && Decode(Encode(region, id)) == Decode(id)
  {
    var prefix := DecodeShape(id);
    var (a, b) := Decode(id).value;
    var front := "aws:///" + region + "/" + prefix;
    assert Encode(region, id) == front + a + "/" + b;
    DecodeLastSegments(front, a, b);
  }

  lemma EncodeInjective(region: string, id1: string, id2: string)
    requires Encode(region, id1) == Encode(region, id2)
    ensures id1 == id2
  {
    var n := |"aws:///" + region + "/"|;
    assert Encode(region, id1)[n..] == id1;
    assert Encode(region, id2)[n..] == id2;
  }
}
