/** The claims of an authenticated caller, as `ClaimsPrincipal.FindFirst` reads them. */
module Claims {
  import opened Wrappers

  /** The `ClaimTypes` the token carries; `Uri` gives the string each one stands for. */
  datatype ClaimType = NameIdentifier | Name | GivenName | Surname | Role

  function Uri(t: ClaimType): string
  {
    match t
    case NameIdentifier => "http://schemas.xmlsoap.org/ws/2005/05/identity/claims/nameidentifier"
    case Name => "http://schemas.xmlsoap.org/ws/2005/05/identity/claims/name"
    case GivenName => "http://schemas.xmlsoap.org/ws/2005/05/identity/claims/givenname"
    case Surname => "http://schemas.xmlsoap.org/ws/2005/05/identity/claims/surname"
    case Role => "http://schemas.microsoft.com/ws/2008/06/identity/claims/role"
  }

  /** Distinct claim types stand for distinct URIs, so matching on the type is matching on the URI. */
  lemma UriInjective(a: ClaimType, b: ClaimType)
    ensures Uri(a) == Uri(b) ==> a == b
  {
    UriLength(a);
    UriLength(b);
  }

  /** The URIs have five different lengths. */
  lemma UriLength(t: ClaimType)
    ensures |Uri(t)| == match t
      case NameIdentifier => 68
      case Name => 58
      case GivenName => 63
      case Surname => 61
      case Role => 60
  {
  }

  datatype Claim = Claim(claimType: ClaimType, value: string)

  /** `FindFirst(type)?.Value`: the value of the first claim of that type, or null. */
  function FindFirst(claims: seq<Claim>, claimType: ClaimType): Option<string>
  {
    if |claims| == 0 then None
    else if claims[0].claimType == claimType then Some(claims[0].value)
    else FindFirst(claims[1..], claimType)
  }

  /**
   * `FindFirst` is null exactly when no claim has the type, and otherwise the value of a claim
   * of that type with no claim of the type before it.
   */
  lemma {:induction false} FindFirstMeaning(claims: seq<Claim>, claimType: ClaimType)
    ensures FindFirst(claims, claimType).None? <==> forall i :: 0 <= i < |claims| ==> claims[i].claimType != claimType
    ensures FindFirst(claims, claimType).Some? ==>
      exists i :: && 0 <= i < |claims| && claims[i].claimType == claimType
                  && claims[i].value == FindFirst(claims, claimType).value
                  && forall j :: 0 <= j < i ==> claims[j].claimType != claimType
  {
    if |claims| > 0 && claims[0].claimType != claimType {
      var rest := claims[1..];
      FindFirstMeaning(rest, claimType);
      assert forall i :: 1 <= i < |claims| ==> claims[i] == rest[i - 1];
      if FindFirst(rest, claimType).Some? {
        var i :| && 0 <= i < |rest| && rest[i].claimType == claimType
                 && rest[i].value == FindFirst(rest, claimType).value
                 && forall j :: 0 <= j < i ==> rest[j].claimType != claimType;
        assert claims[i + 1] == rest[i];
        assert forall j :: 1 <= j < i + 1 ==> claims[j] == rest[j - 1];
      }
    } else if |claims| > 0 {
      assert claims[0].claimType == claimType;
    }
  }

  /** The first claim of a type is the one `FindFirst` returns. */
  lemma {:induction false} FindFirstAt(claims: seq<Claim>, claimType: ClaimType, i: int)
    requires 0 <= i < |claims| && claims[i].claimType == claimType
    requires forall j :: 0 <= j < i ==> claims[j].claimType != claimType
    ensures FindFirst(claims, claimType) == Some(claims[i].value)
  {
    if i > 0 {
      FindFirstAt(claims[1..], claimType, i - 1);
    }
  }
}
