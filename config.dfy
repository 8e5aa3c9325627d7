/**
 * The headers every API request carries (frontend/src/config.ts) and the
 * tenant the server reads back from them (backend/app/middleware/tenant.py).
 */
module Config {
  import opened Common

  const ContentType := "Content-Type"
  const Authorization := "Authorization"
  const TenantHeader := "X-Tenant-ID"

  /** `authHeaders(token)`: JSON content type, and a bearer token when there is one. */
  method AuthHeaders(token: Option<string>) returns (h: map<string, string>)
    ensures ContentType in h && h[ContentType] == "application/json"
    ensures Authorization in h <==> Truthy(token)
    ensures Authorization in h ==> h[Authorization] == "Bearer " + token.value
    ensures h.Keys <= {ContentType, Authorization}
  {
    h := map[ContentType := "application/json"];
    if Truthy(token) {
      h := h[Authorization := "Bearer " + token.value];
    }
  }

  /** Whether `tenantHeaders` names the room: `room && room !== 'public'`. */
  predicate NamesTenant(room: string)
  {
    room != "" && room != "public"
  }

  /**
   * `tenantHeaders(token, room)`: the headers of `authHeaders`, plus the room
   * as `X-Tenant-ID` unless it is empty or the public schema. The tenant the
   * server then reads is the room, or "public" when the header was left out.
   */
  method TenantHeaders(token: Option<string>, room: string) returns (h: map<string, string>)
    ensures ContentType in h && h[ContentType] == "application/json"
    ensures Authorization in h <==> Truthy(token)
    ensures Authorization in h ==> h[Authorization] == "Bearer " + token.value
    ensures TenantHeader in h <==> NamesTenant(room)
    ensures TenantHeader in h ==> h[TenantHeader] == room
    ensures h.Keys <= {ContentType, Authorization, TenantHeader}
    ensures ServerTenant(h) == if NamesTenant(room) then room else "public"
  {
    h := AuthHeaders(token);
    if NamesTenant(room) {
      h := h[TenantHeader := room];
    }
  }

  /** The tenant `TenantMiddleware` stores for a request: the header, defaulting to "public". */
  function ServerTenant(headers: map<string, string>): (t: string)
    ensures TenantHeader !in headers ==> t == "public"
    ensures TenantHeader in headers ==> t == headers[TenantHeader]
  {
    if TenantHeader in headers then headers[TenantHeader] else "public"
  }
}
