/** The audit record (`app/models/access_log.py`) and the leak vocabulary. */
module AccessLogs {
  import opened Common

  /** One audited data access. `accessedData` is the request's payload as a
      JSON object (serialisation is not modelled). `id` and `timestamp` are
      assigned when the row is inserted (0 until then). */
  datatype AccessLog = AccessLog(
    id: nat,
    timestamp: nat,
    endpoint: string,
    httpMethod: string,
    userId: Option<nat>,
    ipAddress: string,
    userAgent: string,
    accessedData: Dict,
    isPrivacyLeak: bool,
    leakType: Option<string>)

  /** The leak tags the insecure API writes. */
  const EmailLeak := "email_leak"
  const PrivatePostLeak := "private_post_leak"
  const UserDetailLeak := "user_detail_leak"
  const DeletedPostLeak := "deleted_post_leak"
  const ApiLeakTypes: set<string> := {EmailLeak, PrivatePostLeak, UserDetailLeak, DeletedPostLeak}

  /** `AccessLog(endpoint, method, ip_address, user_agent, accessed_data,
      user_id=None, is_privacy_leak=False, leak_type=None)`. */
  function NewAccessLog(endpoint: string, httpMethod: string, ipAddress: string, userAgent: string,
                        accessedData: Dict, userId: Option<nat> := None,
                        isPrivacyLeak: bool := false, leakType: Option<string> := None): (l: AccessLog)
    ensures l.endpoint == endpoint && l.httpMethod == httpMethod && l.ipAddress == ipAddress
    ensures l.userAgent == userAgent && l.accessedData == accessedData
    ensures l.userId == userId && l.isPrivacyLeak == isPrivacyLeak && l.leakType == leakType
  {
    AccessLog(0, 0, endpoint, httpMethod, userId, ipAddress, userAgent, accessedData, isPrivacyLeak, leakType)
  }

  /** Without the optional arguments a log names no user and is no leak. */
  lemma NewAccessLogDefaults(endpoint: string, httpMethod: string, ipAddress: string, userAgent: string, accessedData: Dict)
    ensures NewAccessLog(endpoint, httpMethod, ipAddress, userAgent, accessedData).userId == None
    ensures !NewAccessLog(endpoint, httpMethod, ipAddress, userAgent, accessedData).isPrivacyLeak
    ensures NewAccessLog(endpoint, httpMethod, ipAddress, userAgent, accessedData).leakType == None
  {
  }

  const LogKeys: set<string> :=
    {"id", "timestamp", "endpoint", "method", "user_id", "ip_address", "user_agent",
     "accessed_data", "is_privacy_leak", "leak_type"}

  /** `AccessLog.to_dict()`: every column under its own name. */
  function LogToDict(l: AccessLog): (d: Dict)
    ensures d.Keys == LogKeys
    ensures d["user_id"] == OptId(l.userId) && d["accessed_data"] == Obj(l.accessedData)
    ensures d["is_privacy_leak"] == Bool(l.isPrivacyLeak) && d["leak_type"] == OptStr(l.leakType)
    ensures LogFromDict(d) == Some(l)
  {
    map["id" := Int(l.id), "timestamp" := Time(l.timestamp), "endpoint" := Str(l.endpoint),
        "method" := Str(l.httpMethod), "user_id" := OptId(l.userId), "ip_address" := Str(l.ipAddress),
        "user_agent" := Str(l.userAgent), "accessed_data" := Obj(l.accessedData),
        "is_privacy_leak" := Bool(l.isPrivacyLeak), "leak_type" := OptStr(l.leakType)]
  }

  /** Reads a log back from its dictionary view; `None` when a field is
      missing or has the wrong shape. */
  function LogFromDict(d: Dict): Option<AccessLog> {
    if LogKeys <= d.Keys
       && d["id"].Int? && d["id"].i >= 0 && d["timestamp"].Time?
       && d["endpoint"].Str? && d["method"].Str?
       && (d["user_id"].Null? || (d["user_id"].Int? && d["user_id"].i >= 0))
       && d["ip_address"].Str? && d["user_agent"].Str? && d["accessed_data"].Obj?
       && d["is_privacy_leak"].Bool? && (d["leak_type"].Null? || d["leak_type"].Str?)
    then
      Some(AccessLog(
        d["id"].i, d["timestamp"].t, d["endpoint"].s, d["method"].s,
        if d["user_id"].Null? then None else Some(d["user_id"].i),
        d["ip_address"].s, d["user_agent"].s, d["accessed_data"].fields,
        d["is_privacy_leak"].b,
        if d["leak_type"].Null? then None else Some(d["leak_type"].s)))
    else None
  }
}
