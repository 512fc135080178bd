/** `AppConfig`: the settings every operation receives, and the check for the required ones. */
module Config {

  /** The application settings (read from the environment at start-up). */
  datatype AppConfig = AppConfig(
    gcpProjectId: string,
    gcpRegion: string,
    chatModel: string,
    documentBucket: string,
    vectorIndexPath: string)
  {
    /** `validate`: the names of the required settings that are empty, in a fixed order. */
    method Validate() returns (missing: seq<string>)
      ensures ReportsMissing(this, missing)
    {
      missing := [];
      if gcpProjectId == "" {
        missing := missing + ["GCP_PROJECT_ID"];
      }
      if documentBucket == "" {
        missing := missing + ["DOCUMENT_BUCKET"];
      }
    }
  }

  /** `from_env`: each setting from its environment variable, or its default when the variable is unset. */
  function FromEnv(env: map<string, string>): (c: AppConfig)
    ensures "GCP_PROJECT_ID" in env ==> c.gcpProjectId == env["GCP_PROJECT_ID"]
    ensures "GCP_PROJECT_ID" !in env ==> c.gcpProjectId == ""
    ensures "GCP_REGION" in env ==> c.gcpRegion == env["GCP_REGION"]
    ensures "GCP_REGION" !in env ==> c.gcpRegion == "us-central1"
    ensures "CHAT_MODEL" in env ==> c.chatModel == env["CHAT_MODEL"]
    ensures "CHAT_MODEL" !in env ==> c.chatModel == "gemini-2.5-pro"
    ensures "DOCUMENT_BUCKET" in env ==> c.documentBucket == env["DOCUMENT_BUCKET"]
    ensures "DOCUMENT_BUCKET" !in env ==> c.documentBucket == ""
    ensures "VECTOR_INDEX_PATH" in env ==> c.vectorIndexPath == env["VECTOR_INDEX_PATH"]
    ensures "VECTOR_INDEX_PATH" !in env ==> c.vectorIndexPath == "vector_index.jsonl"
  {
    AppConfig(
      Lookup(env, "GCP_PROJECT_ID", ""),
      Lookup(env, "GCP_REGION", "us-central1"),
      Lookup(env, "CHAT_MODEL", "gemini-2.5-pro"),
      Lookup(env, "DOCUMENT_BUCKET", ""),
      Lookup(env, "VECTOR_INDEX_PATH", "vector_index.jsonl"))
  }

  /** `os.environ.get(key, default)`. */
  function Lookup(env: map<string, string>, key: string, default: string): string
  {
    if key in env then env[key] else default
  }

  /**
   * `missing` is a correct report for `c`: it names `GCP_PROJECT_ID` exactly when the project id
   * is empty and `DOCUMENT_BUCKET` exactly when the bucket is empty, names nothing else, names
   * nothing twice, and names the project id first.
   */
  predicate ReportsMissing(c: AppConfig, missing: seq<string>)
  {
    && ("GCP_PROJECT_ID" in missing <==> c.gcpProjectId == "")
    && ("DOCUMENT_BUCKET" in missing <==> c.documentBucket == "")
    && (forall i :: 0 <= i < |missing| ==> missing[i] == "GCP_PROJECT_ID" || missing[i] == "DOCUMENT_BUCKET")
    && (forall i, j :: 0 <= i < j < |missing| ==> missing[i] != missing[j])
    && (forall i, j ::
          0 <= i < |missing| && 0 <= j < |missing| &&
          missing[i] == "GCP_PROJECT_ID" && missing[j] == "DOCUMENT_BUCKET"
          ==> i < j)
  }

  /**
   * A report is determined by the project id and bucket alone: region, chat model and index
   * path never change it. It is empty exactly when both settings are present, and holds at
   * most two names.
   */
  lemma ReportDetermined(c1: AppConfig, m1: seq<string>, c2: AppConfig, m2: seq<string>)
    requires ReportsMissing(c1, m1) && ReportsMissing(c2, m2)
    requires c1.gcpProjectId == c2.gcpProjectId && c1.documentBucket == c2.documentBucket
    ensures m1 == m2
    ensures m1 == [] <==> c1.gcpProjectId != "" && c1.documentBucket != ""
    ensures |m1| <= 2
  {
    ReportShape(c1, m1);
    ReportShape(c2, m2);
  }

  /** The only report for a configuration: the project id's name, then the bucket's, each if empty. */
  lemma ReportShape(c: AppConfig, m: seq<string>)
    requires ReportsMissing(c, m)
    ensures m == (if c.gcpProjectId == "" then ["GCP_PROJECT_ID"] else []) +
                 (if c.documentBucket == "" then ["DOCUMENT_BUCKET"] else [])
  {
    var g, d := "GCP_PROJECT_ID", "DOCUMENT_BUCKET";
    assert g != d by { assert g[0] != d[0]; }
    if |m| > 2 {
      ThreeOfTwo(m[0], m[1], m[2], g, d);
      assert false;
    }
    if |m| == 2 {
      assert m[0] != m[1];
      assert m[0] == g && m[1] == d;
    }
    if |m| == 1 {
      assert m == [m[0]];
    }
  }

  /** Three values drawn from two cannot all differ. */
  lemma ThreeOfTwo<T>(x: T, y: T, z: T, a: T, b: T)
    requires (x == a || x == b) && (y == a || y == b) && (z == a || z == b)
    ensures x == y || x == z || y == z
  {
  }

  /**
   * Loaded from the environment, a setting is reported missing exactly when its variable is unset
   * or set to the empty string; with an empty environment both are reported, project id first.
   */
  lemma FromEnvReport(env: map<string, string>, m: seq<string>)
    requires ReportsMissing(FromEnv(env), m)
    ensures "GCP_PROJECT_ID" in m <==> "GCP_PROJECT_ID" !in env || env["GCP_PROJECT_ID"] == ""
    ensures "DOCUMENT_BUCKET" in m <==> "DOCUMENT_BUCKET" !in env || env["DOCUMENT_BUCKET"] == ""
    ensures env == map[] ==> m == ["GCP_PROJECT_ID", "DOCUMENT_BUCKET"]
  {
    ReportShape(FromEnv(env), m);
  }
}
