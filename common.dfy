/** Values shared by every service: optional values, the API response
    envelope and the few .NET string operations the services rely on. */
module Common {

  datatype Option<+T> = None | Some(value: T)

  /** Timestamps (DateTime.UtcNow and friends) as whole seconds. */
  type Time = int

  const SecondsPerMinute := 60
  const SecondsPerDay := 86400

  /** DateTime.AddMinutes and DateTime.AddDays on whole numbers. */
  function AddMinutes(t: Time, minutes: int): Time { t + minutes * SecondsPerMinute }
  function AddDays(t: Time, days: int): Time { t + days * SecondsPerDay }

  /** The envelope every service returns (ApiResponseDto<T>): a success flag,
      a message, the itemized errors and the payload. */
  datatype Response<+T> = Response(success: bool, message: string, errors: seq<string>, data: Option<T>)

  function Failure<T>(message: string): (r: Response<T>)
    ensures !r.success && r.message == message && r.errors == [] && r.data.None?
  {
    Response(false, message, [], None)
  }

  function Success<T>(message: string, data: T): (r: Response<T>)
    ensures r.success && r.message == message && r.errors == [] && r.data == Some(data)
  {
    Response(true, message, [], Some(data))
  }

  /** char.IsWhiteSpace: the Unicode space, line and paragraph separators,
      U+0009 to U+000D and U+0085. */
  predicate IsWhiteSpace(c: char) {
    || '\U{9}' <= c <= '\U{D}'
    || c == ' ' || c == '\U{85}' || c == '\U{A0}' || c == '\U{1680}'
    || '\U{2000}' <= c <= '\U{200A}'
    || c == '\U{2028}' || c == '\U{2029}' || c == '\U{202F}' || c == '\U{205F}' || c == '\U{3000}'
  }

  /** string.IsNullOrWhiteSpace */
  predicate IsNullOrWhiteSpace(s: Option<string>) {
    s.None? || forall i | 0 <= i < |s.value| :: IsWhiteSpace(s.value[i])
  }

  /** string.IsNullOrEmpty */
  predicate IsNullOrEmpty(s: Option<string>) {
    s.None? || s.value == ""
  }

  /** The length of a string that may be null, where the source only asks
      for it after ruling out null. */
  function Length(s: Option<string>): nat {
    if s.None? then 0 else |s.value|
  }

  /** char.ToLowerInvariant restricted to the ASCII letters. */
  function LowerChar(c: char): (r: char)
    ensures 'A' <= c <= 'Z' ==> r as int == c as int + 32
    ensures !('A' <= c <= 'Z') ==> r == c
  {
    if 'A' <= c <= 'Z' then (c as int + 32) as char else c
  }

  /** string.ToLower / string.ToLowerInvariant, letter by letter. */
  function ToLower(s: string): (r: string)
    ensures |r| == |s|
    ensures forall i | 0 <= i < |s| :: r[i] == LowerChar(s[i])
  {
    if s == [] then [] else [LowerChar(s[0])] + ToLower(s[1..])
  }

  /** Lower-casing twice is lower-casing once. */
  lemma ToLowerIdempotent(s: string)
    ensures ToLower(ToLower(s)) == ToLower(s)
  {
  }

  /** An ordinal prefix test, code unit by code unit. .NET's
      StartsWith(string) compares by the current culture instead; the two
      agree when globalization is invariant. */
  predicate StartsWith(s: string, prefix: string) {
    |prefix| <= |s| && s[..|prefix|] == prefix
  }
}
