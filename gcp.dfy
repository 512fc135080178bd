/** Google Cloud helpers: reading the endpoint id out of a full endpoint resource name. */
module Gcp {
  import opened Wrappers
  import opened Text

  /** `s.split("/")`: the pieces between slashes, in order; always at least one, possibly empty. */
  function Split(s: string): (r: seq<string>)
    ensures |r| >= 1
  {
    if |s| == 0 then [""]
    else
      var parts := Split(s[..|s| - 1]);
      var c := s[|s| - 1];
      if c == '/' then parts + [""]
      else parts[..|parts| - 1] + [parts[|parts| - 1] + [c]]
  }

  /** Splitting on '/' loses nothing: no piece holds a '/', and joining the pieces with '/' restores the name. */
  lemma {:induction false} SplitJoin(s: string)
    ensures forall i :: 0 <= i < |Split(s)| ==> '/' !in Split(s)[i]
    ensures Join("/", Split(s)) == s
  {
    if |s| > 0 {
      var init := s[..|s| - 1];
      var c := s[|s| - 1];
      var parts := Split(init);
      SplitJoin(init);
      assert s == init + [c];
      if c == '/' {
        JoinSnoc("/", parts, "");
      } else {
        var front := parts[..|parts| - 1];
        var last := parts[|parts| - 1];
        if |parts| == 1 {
          assert Split(s) == [last + [c]];
        } else {
          assert parts == front + [last];
          JoinSnoc("/", front, last);
          JoinSnoc("/", front, last + [c]);
        }
      }
    }
  }

  /**
   * The last piece of a split is the longest slash-free suffix: the name ends with it, and
   * either it is the whole name or a '/' stands just before it.
   */
  lemma SplitLast(s: string)
    ensures var l := Split(s)[|Split(s)| - 1];
      && |l| <= |s| && s[|s| - |l|..] == l && '/' !in l
      && (|l| == |s| || s[|s| - |l| - 1] == '/')
  {
    var parts := Split(s);
    var l := parts[|parts| - 1];
    SplitJoin(s);
    if |parts| > 1 {
      var front := parts[..|parts| - 1];
      assert parts == front + [l];
      JoinSnoc("/", front, l);
      var j := Join("/", front);
      assert s == j + "/" + l;
      assert s[|s| - |l| - 1] == '/';
      assert s[|s| - |l|..] == l;
    }
  }

  /** `get_endpoint_resource_id`: the text after the last '/', or None when that is empty. */
  function GetEndpointResourceId(endpointName: string): (r: Option<string>)
    ensures r.None? <==> endpointName == "" || endpointName[|endpointName| - 1] == '/'
    ensures r.Some? ==>
      && r.value != "" && '/' !in r.value
      && |r.value| <= |endpointName|
      && endpointName[|endpointName| - |r.value|..] == r.value
      && (|r.value| == |endpointName| || endpointName[|endpointName| - |r.value| - 1] == '/')
  {
    SplitLast(endpointName);
    var parts := Split(endpointName);
    if |parts| == 0 then None
    else if parts[|parts| - 1] == "" then None
    else Some(parts[|parts| - 1])
  }

  /** A name without any '/' is its own id, if it is not empty. */
  lemma BareNameIsId(name: string)
    requires name != "" && '/' !in name
    ensures GetEndpointResourceId(name) == Some(name)
  {
  }

  /** The id of a full resource name is its final component. */
  lemma EndpointExample()
    ensures GetEndpointResourceId("projects/p/locations/us/endpoints/456") == Some("456")
  {
    var name := "projects/p/locations/us/endpoints/456";
    assert name[|name| - 4] == '/';
  }
}
