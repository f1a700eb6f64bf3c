/** Values shared by the schemas, the routers and the authentication middleware. */
module Common {

  datatype Option<T> = None | Some(value: T) {
    /** The value, or `default` when absent. */
    function GetOr(default: T): T {
      if Some? then value else default
    }
  }

  /** An error response: an HTTP status with the `message` of the `{success: false}` envelope. */
  datatype Failure = Failure(status: int, message: string)

  datatype Result<T> = Ok(value: T) | Err(failure: Failure)

  /** A request value that JavaScript treats as truthy: present and not the empty string. */
  predicate Truthy(s: Option<string>) {
    s.Some? && s.value != ""
  }

  /** The characters `String.prototype.trim` removes: ECMAScript WhiteSpace and LineTerminator. */
  predicate IsSpace(c: char) {
    c == '\t' || c == '\n' || c == '\U{0B}' || c == '\U{0C}' || c == '\r' || c == ' '
    || c == '\U{A0}' || c == '\U{1680}' || ('\U{2000}' <= c <= '\U{200A}')
    || c == '\U{2028}' || c == '\U{2029}' || c == '\U{202F}' || c == '\U{205F}'
    || c == '\U{3000}' || c == '\U{FEFF}'
  }

  function TrimStart(s: string): (r: string)
    ensures |r| <= |s| && r == s[|s| - |r|..]
    ensures r == "" || !IsSpace(r[0])
    ensures forall i :: 0 <= i < |s| - |r| ==> IsSpace(s[i])
  {
    if s != [] && IsSpace(s[0]) then TrimStart(s[1..]) else s
  }

  function TrimEnd(s: string): (r: string)
    ensures |r| <= |s| && r == s[..|r|]
    ensures r == "" || !IsSpace(r[|r| - 1])
    ensures forall i :: |r| <= i < |s| ==> IsSpace(s[i])
  {
    if s != [] && IsSpace(s[|s| - 1]) then TrimEnd(s[..|s| - 1]) else s
  }

  /** `r` is the slice of `s` at `k`, and everything of `s` before and after it is whitespace. */
  predicate CutAt(s: string, k: nat, r: string) {
    && k + |r| <= |s| && r == s[k..k + |r|]
    && (forall i :: 0 <= i < k ==> IsSpace(s[i]))
    && (forall i :: k + |r| <= i < |s| ==> IsSpace(s[i]))
  }

  /** `String.prototype.trim`, applied by the schemas to every `title`. */
  function Trim(s: string): (r: string)
    ensures |r| <= |s|
    ensures r == "" || (!IsSpace(r[0]) && !IsSpace(r[|r| - 1]))
    ensures r == "" <==> forall i :: 0 <= i < |s| ==> IsSpace(s[i])
    ensures exists k :: CutAt(s, k, r)
  {
    var t := TrimStart(s);
    var r := TrimEnd(t);
    assert r != "" ==> r[0] == t[0];
    CutTwice(s, t, r);
    assert r != "" ==> r[0] == s[|s| - |t|];
    r
  }

  /**
   * Cutting whitespace off the front of `s` (giving `t`) and then off the back of `t`
   * (giving `r`) leaves a slice of `s` with only whitespace on either side.
   */
  lemma CutTwice(s: string, t: string, r: string)
    requires |t| <= |s| && t == s[|s| - |t|..] && forall i :: 0 <= i < |s| - |t| ==> IsSpace(s[i])
    requires |r| <= |t| && r == t[..|r|] && forall i :: |r| <= i < |t| ==> IsSpace(t[i])
    ensures CutAt(s, |s| - |t|, r)
  {
    var k := |s| - |t|;
    assert r == s[k..k + |r|];
    forall i | k + |r| <= i < |s| ensures IsSpace(s[i]) {
      assert s[i] == t[i - k];
    }
  }

  /** Trimming a string without surrounding whitespace gives it back. */
  lemma TrimKeepsClean(s: string)
    requires s == "" || (!IsSpace(s[0]) && !IsSpace(s[|s| - 1]))
    ensures Trim(s) == s
  {
  }

  lemma TrimIdempotent(s: string)
    ensures Trim(Trim(s)) == Trim(s)
  {
    TrimKeepsClean(Trim(s));
  }

  /** The audience enum shared by both schemas. */
  datatype Audience = Everyone | Students | Teachers | Parents | Staff

  function AudienceName(a: Audience): string {
    match a
    case Everyone => "all"
    case Students => "students"
    case Teachers => "teachers"
    case Parents => "parents"
    case Staff => "staff"
  }

  /** Enum validation of one audience string. */
  function ParseAudience(s: string): (r: Option<Audience>)
    ensures forall a :: r == Some(a) <==> AudienceName(a) == s
  {
    if s == "all" then Some(Everyone)
    else if s == "students" then Some(Students)
    else if s == "teachers" then Some(Teachers)
    else if s == "parents" then Some(Parents)
    else if s == "staff" then Some(Staff)
    else None
  }

  /** Enum validation of an audience array: every element must be in the enum. */
  function ParseAudiences(ss: seq<string>): (r: Option<seq<Audience>>)
    ensures r.Some? <==> forall i :: 0 <= i < |ss| ==> ParseAudience(ss[i]).Some?
    ensures r.Some? ==> |r.value| == |ss| && forall i :: 0 <= i < |ss| ==> AudienceName(r.value[i]) == ss[i]
  {
    if ss == [] then Some([])
    else match (ParseAudience(ss[0]), ParseAudiences(ss[1..]))
      case (Some(a), Some(rest)) =>
        assert forall i :: 1 <= i < |ss| ==> ss[i] == ss[1..][i - 1];
        Some([a] + rest)
      case (None, _) => None
      case (_, None) =>
        assert forall i :: 1 <= i < |ss| ==> ss[i] == ss[1..][i - 1];
        None
  }
}
