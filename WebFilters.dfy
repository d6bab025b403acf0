/**
 * WebFilter: the per-node directory of clustered sessions (by Hazelcast id,
 * and from the container's session id to the Hazelcast id), the session id
 * generator, the session cookie, and the request wrapper that resolves which
 * session a request belongs to.
 */
module WebFilters {
  import opened Wrappers
  import opened Strings
  import opened SessionService
  import opened HttpSessions
  import opened FilterConfig

  /* ---------------------------------------------------------------------- */
  /* Session ids                                                            */
  /* ---------------------------------------------------------------------- */

  predicate IsAsciiLetter(c: char) {
    'a' <= c <= 'z' || 'A' <= c <= 'Z'
  }

  /** What one character of the UUID contributes: nothing for '-', a letter upper-cased, anything else as is. */
  function IdChars(c: char): string {
    if c == '-' then [] else if IsAsciiLetter(c) then [UpperChar(c)] else [c]
  }

  /** The UUID without its hyphens and with its letters upper-cased. */
  function Stripped(uuid: string): string {
    if uuid == [] then [] else Stripped(uuid[..|uuid| - 1]) + IdChars(uuid[|uuid| - 1])
  }

  /** The id generateSessionId makes from a UUID string. */
  function SessionIdFrom(uuid: string): string {
    "HZ" + Stripped(uuid)
  }

  function HyphenCount(s: string): nat {
    if s == [] then 0 else HyphenCount(s[..|s| - 1]) + (if s[|s| - 1] == '-' then 1 else 0)
  }

  /** generateSessionId, given the UUID string the secure generator produced. */
  method GenerateSessionId(uuid: string) returns (id: string)
    ensures id == SessionIdFrom(uuid)
  {
    id := "HZ";
    var i := 0;
    while i < |uuid|
      invariant 0 <= i <= |uuid|
      invariant id == "HZ" + Stripped(uuid[..i])
    {
      var c := uuid[i];
      if c != '-' {
        if IsAsciiLetter(c) {
          id := id + [UpperChar(c)];
        } else {
          id := id + [c];
        }
      }
      assert uuid[..i + 1][..i] == uuid[..i];
      i := i + 1;
    }
    assert uuid[..i] == uuid;
  }

  /** The id has no hyphen and no lower-case letter, and one character per non-hyphen UUID character. */
  lemma {:induction false} StrippedShape(uuid: string)
    ensures |Stripped(uuid)| == |uuid| - HyphenCount(uuid)
    ensures '-' !in Stripped(uuid)
    ensures forall i | 0 <= i < |Stripped(uuid)| :: !IsAsciiLower(Stripped(uuid)[i])
  {
    if uuid != [] {
      StrippedShape(uuid[..|uuid| - 1]);
    }
  }

  lemma SessionIdShape(uuid: string)
    ensures SessionIdFrom(uuid)[..2] == "HZ"
    ensures |SessionIdFrom(uuid)| == 2 + |uuid| - HyphenCount(uuid)
    ensures '-' !in SessionIdFrom(uuid)
    ensures forall i | 0 <= i < |SessionIdFrom(uuid)| :: !IsAsciiLower(SessionIdFrom(uuid)[i])
  {
    StrippedShape(uuid);
    var id := SessionIdFrom(uuid);
    forall i | 2 <= i < |id|
      ensures id[i] == Stripped(uuid)[i - 2]
    {
    }
  }

  lemma {:induction false} StrippedAppend(a: string, b: string)
    ensures Stripped(a + b) == Stripped(a) + Stripped(b)
    decreases |b|
  {
    if b != [] {
      var b' := b[..|b| - 1];
      assert (a + b)[..|a + b| - 1] == a + b';
      StrippedAppend(a, b');
    } else {
      assert a + b == a;
    }
  }

  /** An id already stripped is left as it is: stripping is idempotent. */
  lemma {:induction false} StrippedIdempotent(uuid: string)
    ensures Stripped(Stripped(uuid)) == Stripped(uuid)
  {
    if uuid != [] {
      var init := uuid[..|uuid| - 1];
      var c := uuid[|uuid| - 1];
      StrippedIdempotent(init);
      StrippedAppend(Stripped(init), IdChars(c));
      var t := IdChars(c);
      if t != [] {
        assert t[..0] == [];
      }
    }
  }

  /* ---------------------------------------------------------------------- */
  /* Finding the session id a request carries                               */
  /* ---------------------------------------------------------------------- */

  /** A request cookie; a cookie may carry no value. */
  datatype Cookie = Cookie(name: string, value: Option<string>)

  /** The position of the first cookie whose name equals `cookieName` ignoring case. */
  function FirstMatch(cookies: seq<Cookie>, cookieName: string): (r: Option<nat>)
    ensures r.Some? ==> r.value < |cookies| && EqualsIgnoreCase(cookies[r.value].name, cookieName)
    ensures r.Some? ==> forall j | 0 <= j < r.value :: !EqualsIgnoreCase(cookies[j].name, cookieName)
    ensures r.None? ==> forall j | 0 <= j < |cookies| :: !EqualsIgnoreCase(cookies[j].name, cookieName)
  {
    if cookies == [] then None
    else if EqualsIgnoreCase(cookies[0].name, cookieName) then Some(0)
    else
      match FirstMatch(cookies[1..], cookieName)
      case None => None
      case Some(i) => Some(i + 1)
  }

  /**
   * findHazelcastSessionIdFromRequest: the value of the first cookie named
   * like the session cookie; when that gives no value and request parameters
   * are enabled, the request parameter of that name.
   */
  function SessionIdFromRequest(cookies: seq<Cookie>, parameter: Option<string>, cookieName: string, useRequestParameter: bool): Option<string> {
    var fromCookie := match FirstMatch(cookies, cookieName) case Some(i) => cookies[i].value case None => None;
    if fromCookie.None? && useRequestParameter then parameter else fromCookie
  }

  /** The first matching cookie that has a value decides, whatever comes after it and whatever the parameter says. */
  lemma FirstCookieWins(cookies: seq<Cookie>, parameter: Option<string>, cookieName: string, useRequestParameter: bool, i: nat)
    requires i < |cookies| && EqualsIgnoreCase(cookies[i].name, cookieName) && cookies[i].value.Some?
    requires forall j | 0 <= j < i :: !EqualsIgnoreCase(cookies[j].name, cookieName)
    ensures SessionIdFromRequest(cookies, parameter, cookieName, useRequestParameter) == cookies[i].value
  {
    FirstMatchIs(cookies, cookieName, i);
  }

  /**
   * The parameter is read only when request parameters are enabled and no
   * matching cookie gave a value; without a matching cookie it is the answer.
   */
  lemma ParameterOnlyAsFallback(cookies: seq<Cookie>, parameter: Option<string>, cookieName: string, useRequestParameter: bool)
    ensures var r := SessionIdFromRequest(cookies, parameter, cookieName, useRequestParameter);
      r.Some? && !(exists i | 0 <= i < |cookies| :: EqualsIgnoreCase(cookies[i].name, cookieName) && cookies[i].value == r) ==>
        useRequestParameter && r == parameter
    ensures (forall j | 0 <= j < |cookies| :: !EqualsIgnoreCase(cookies[j].name, cookieName)) ==>
      SessionIdFromRequest(cookies, parameter, cookieName, useRequestParameter) == (if useRequestParameter then parameter else None)
  {
  }

  /* ---------------------------------------------------------------------- */
  /* The session cookie                                                     */
  /* ---------------------------------------------------------------------- */

  /** The cookie path: the configured path unless blank, else the context path, with "" becoming "/". */
  function CookiePath(configured: Option<string>, contextPath: string): (path: string)
    ensures path != ""
    ensures !IsBlank(configured) ==> path == configured.value
    ensures IsBlank(configured) && contextPath != "" ==> path == contextPath
  {
    var p := if !IsBlank(configured) then configured.value else contextPath;
    if p == "" then "/" else p
  }

  /** The session cookie addSessionCookie adds to the response. */
  datatype SessionCookie = SessionCookie(name: string, value: string, path: string, domain: Option<string>, secure: bool, httpOnly: bool)

  function SessionCookieFor(config: WebFilterConfig, contextPath: string, sessionId: string): (c: SessionCookie)
    ensures c.name == config.cookieName && c.value == sessionId && c.path != ""
  {
    SessionCookie(config.cookieName, sessionId, CookiePath(config.cookiePath, contextPath),
      config.cookieDomain, config.cookieSecure, config.cookieHttpOnly)
  }

  /** What a deleteSession call leaves in the store and the orphan queue. */
  function AfterDelete(store: Store, queue: seq<Orphan>, reached: bool, id: string, invalidate: bool): (r: (Store, seq<Orphan>))
    ensures reached ==> r.1 == queue
    ensures !reached ==> r.0 == store && r.1 == queue + [(id, invalidate)]
  {
    if reached then (Deleted(store, id, invalidate), queue) else (store, queue + [(id, invalidate)])
  }

  function SessionSet(s: Option<HazelcastHttpSession>): set<HazelcastHttpSession> {
    if s.Some? then {s.value} else {}
  }

  function ContainerSet(s: Option<ContainerSession>): set<ContainerSession> {
    if s.Some? then {s.value} else {}
  }

  /* ---------------------------------------------------------------------- */
  /* The filter                                                             */
  /* ---------------------------------------------------------------------- */

  class WebFilter {
    /** Container session id to Hazelcast session id. */
    var originalSessions: map<string, string>
    /** Hazelcast session id to the session object of this node. */
    var sessions: map<string, HazelcastHttpSession>
    const svc: ClusteredSessionService
    const config: WebFilterConfig

    /** Every session is filed under its own id and talks to this filter's service. */
    ghost predicate Valid()
      reads this
    {
      forall k | k in sessions :: sessions[k].id == k && sessions[k].svc == svc
    }

    /** init, given the config create made and the service built from it. */
    constructor (config: WebFilterConfig, svc: ClusteredSessionService)
      ensures Valid()
      ensures this.config == config && this.svc == svc
      ensures sessions == map[] && originalSessions == map[]
    {
      this.config := config;
      this.svc := svc;
      sessions := map[];
      originalSessions := map[];
    }

    /** updateSessionMaps: files the session under its id and maps the container id to it; nothing else changes. */
    method UpdateSessionMaps(originalSessionId: string, session: HazelcastHttpSession)
      requires session.svc == svc
      modifies this
      ensures sessions == old(sessions)[session.id := session]
      ensures originalSessions == old(originalSessions)[originalSessionId := session.id]
      ensures old(Valid()) ==> Valid()
    {
      sessions := sessions[session.id := session];
      originalSessions := originalSessions[originalSessionId := session.id];
    }

    /** destroySession: drops both directory entries of the session and destroys it. */
    method DestroySession(session: HazelcastHttpSession, invalidate: bool, ok: bool)
      requires session.svc == svc
      modifies this, session, svc
      ensures sessions == old(sessions) - {session.id}
      ensures originalSessions == old(originalSessions) - {old(session.originalSession.id)}
      ensures !session.valid && session.localCache == old(session.localCache)
      ensures (svc.clusterMap, svc.orphanSessions) == AfterDelete(old(svc.clusterMap), old(svc.orphanSessions), old(svc.hasInstance) && ok, session.id, invalidate)
      ensures svc.Connection() == old(svc.Connection())
      ensures old(Valid()) ==> Valid()
    {
      sessions := sessions - {session.id};
      originalSessions := originalSessions - {session.originalSession.id};
      session.Destroy(invalidate, ok);
    }

    /**
     * The step of changeSessionId that takes the current session out of the
     * session map and destroys it with invalidation; the container mapping
     * was already removed.
     */
    method UnfileAndInvalidate(session: HazelcastHttpSession, ok: bool)
      requires session.svc == svc
      modifies this, session, svc
      ensures sessions == old(sessions) - {session.id} && originalSessions == old(originalSessions)
      ensures !session.valid
      ensures (svc.clusterMap, svc.orphanSessions) == AfterDelete(old(svc.clusterMap), old(svc.orphanSessions), old(svc.hasInstance) && ok, session.id, true)
      ensures svc.Connection() == old(svc.Connection())
      ensures old(Valid()) ==> Valid()
    {
      sessions := sessions - {session.id};
      session.Destroy(true, ok);
    }

    /**
     * HazelcastHttpSession.invalidate: the session is destroyed through the
     * filter with invalidation, then remembers its container session's id.
     */
    method Invalidate(session: HazelcastHttpSession, ok: bool)
      requires session.svc == svc
      modifies this, session, svc
      ensures sessions == old(sessions) - {session.id}
      ensures originalSessions == old(originalSessions) - {old(session.originalSession.id)}
      ensures !session.valid && session.invalidatedOriginalSessionId == Some(old(session.originalSession.id))
      ensures (svc.clusterMap, svc.orphanSessions) == AfterDelete(old(svc.clusterMap), old(svc.orphanSessions), old(svc.hasInstance) && ok, session.id, true)
      ensures old(Valid()) ==> Valid()
    {
      DestroySession(session, true, ok);
      session.invalidatedOriginalSessionId := Some(session.originalSession.id);
    }

    /**
     * destroyOriginalSession: the container session ended. Its mapping goes;
     * the session it mapped to is destroyed, without invalidating it in the
     * cluster, when it is still filed.
     */
    method DestroyOriginalSession(originalSession: ContainerSession, ok: bool)
      requires Valid()
      modifies this, svc, sessions.Values
      ensures Valid()
      ensures var key := old(originalSession.id);
        !(key in old(originalSessions) && old(originalSessions[key]) in old(sessions)) ==>
          && originalSessions == old(originalSessions) - {key}
          && sessions == old(sessions)
          && svc.clusterMap == old(svc.clusterMap) && svc.orphanSessions == old(svc.orphanSessions)
      ensures var key := old(originalSession.id);
        key in old(originalSessions) && old(originalSessions[key]) in old(sessions) ==>
          var hzId := old(originalSessions[key]);
          var session := old(sessions[hzId]);
          && originalSessions == old(originalSessions) - {key, old(session.originalSession.id)}
          && sessions == old(sessions) - {hzId}
          && !session.valid
          && (svc.clusterMap, svc.orphanSessions) == AfterDelete(old(svc.clusterMap), old(svc.orphanSessions), old(svc.hasInstance) && ok, hzId, false)
    {
      var key := originalSession.id;
      var hazelcastSessionId := if key in originalSessions then Some(originalSessions[key]) else None;
      originalSessions := originalSessions - {key};
      if hazelcastSessionId.Some? && hazelcastSessionId.value in sessions {
        var session := sessions[hazelcastSessionId.value];
        DestroySession(session, false, ok);
      }
    }

    /**
     * getSessionWithId: the filed session if it is still valid. An invalid
     * one is destroyed (invalidating it in the cluster) and not returned.
     */
    method GetSessionWithId(sessionId: string, ok: bool) returns (session: Option<HazelcastHttpSession>)
      requires Valid()
      modifies this, svc, sessions.Values
      ensures Valid()
      ensures session.Some? ==> session.value.valid
      ensures session.Some? <==> sessionId in old(sessions) && old(sessions[sessionId].valid)
      ensures session.Some? ==> session.value == old(sessions[sessionId]) && session.value.localCache == old(session.value.localCache)
      ensures sessionId in old(sessions) && !old(sessions[sessionId].valid) ==>
        && sessions == old(sessions) - {sessionId}
        && originalSessions == old(originalSessions) - {old(sessions[sessionId].originalSession.id)}
        && (svc.clusterMap, svc.orphanSessions) == AfterDelete(old(svc.clusterMap), old(svc.orphanSessions), old(svc.hasInstance) && ok, sessionId, true)
      ensures !(sessionId in old(sessions) && !old(sessions[sessionId].valid)) ==>
        && sessions == old(sessions) && originalSessions == old(originalSessions)
        && svc.clusterMap == old(svc.clusterMap) && svc.orphanSessions == old(svc.orphanSessions)
      ensures sessions.Keys <= old(sessions.Keys) && sessions.Values <= old(sessions.Values)
      ensures svc.Connection() == old(svc.Connection())
    {
      if sessionId !in sessions {
        return None;
      }
      var s := sessions[sessionId];
      if !s.valid {
        DestroySession(s, true, ok);
        return None;
      }
      session := Some(s);
    }

    /** sessionExistsInTheCluster: a present id whose record the cluster holds; a failed call counts as absent. */
    method SessionExistsInTheCluster(hazelcastSessionId: Option<string>, ok: bool) returns (exists_: bool)
      ensures exists_ <==> hazelcastSessionId.Some? && svc.hasInstance && ok && hazelcastSessionId.value in svc.clusterMap
    {
      if hazelcastSessionId.None? {
        return false;
      }
      var contains := svc.ContainsSession(hazelcastSessionId.value, ok);
      exists_ := contains.Done? && contains.value;
    }

    /** createHazelcastHttpSession: a new session configured from the filter's settings. */
    method CreateHazelcastHttpSession(id: string, originalSession: ContainerSession, ok: bool) returns (session: HazelcastHttpSession)
      ensures fresh(session) && session.Valid() && session.valid && !session.clusterWideNew
      ensures session.id == id && session.svc == svc && session.originalSession == originalSession
      ensures session.deferredWrite == config.deferredWrite && session.stickySession == config.stickySession
      ensures session.transientAttributes == config.transientAttributes
    {
      session := new HazelcastHttpSession(svc, id, originalSession, config.deferredWrite, config.stickySession, config.transientAttributes, ok);
    }

    /** addSessionCookie: the session cookie goes on the response. */
    method AddSessionCookie(req: HazelcastRequestWrapper, sessionId: string)
      modifies req
      ensures req.addedCookies == old(req.addedCookies) + [SessionCookieFor(config, req.contextPath, sessionId)]
      ensures req.containerSession == old(req.containerSession) && req.hazelcastSession == old(req.hazelcastSession)
    {
      req.addedCookies := req.addedCookies + [SessionCookieFor(config, req.contextPath, sessionId)];
    }

    /**
     * createNewSession: nothing when creation was not asked for and the
     * cluster does not hold the given id. Otherwise a session under the given
     * id when the cluster holds it, else under a generated one, filed in both
     * maps, with its cookie added; cluster-wide new only when no id was given.
     */
    method CreateNewSession(req: HazelcastRequestWrapper, create: bool, existingSessionId: Option<string>, uuid: string, ok: bool)
      returns (session: Option<HazelcastHttpSession>)
      modifies this, req
      ensures old(Valid()) ==> Valid()
      ensures var exists_ := existingSessionId.Some? && svc.hasInstance && ok && existingSessionId.value in svc.clusterMap;
        session.None? <==> !create && !exists_
      ensures session.None? ==>
        && sessions == old(sessions) && originalSessions == old(originalSessions)
        && req.addedCookies == old(req.addedCookies) && req.containerSession == old(req.containerSession)
      ensures var exists_ := existingSessionId.Some? && svc.hasInstance && ok && existingSessionId.value in svc.clusterMap;
        session.Some? ==>
          var id := if exists_ then existingSessionId.value else SessionIdFrom(uuid);
          && fresh(session.value) && session.value.valid && session.value.id == id && session.value.svc == svc
          && session.value.clusterWideNew == existingSessionId.None?
          && req.containerSession.Some? && session.value.originalSession == req.containerSession.value
          && sessions == old(sessions)[id := session.value]
          && originalSessions == old(originalSessions)[req.containerSession.value.id := id]
          && req.addedCookies == old(req.addedCookies) + [SessionCookieFor(config, req.contextPath, id)]
      ensures old(req.containerSession).Some? ==> req.containerSession == old(req.containerSession)
      ensures req.hazelcastSession == old(req.hazelcastSession)
    {
      var exists_ := SessionExistsInTheCluster(existingSessionId, ok);
      if !create && !exists_ {
        return None;
      }
      var id;
      if exists_ {
        id := existingSessionId.value;
      } else {
        id := GenerateSessionId(uuid);
      }
      var originalSession := req.GetOriginalSession(true);
      var s := CreateHazelcastHttpSession(id, originalSession.value, ok);
      if existingSessionId.None? {
        s.SetClusterWideNew(true);
      }
      UpdateSessionMaps(originalSession.value.id, s);
      AddSessionCookie(req, id);
      session := Some(s);
    }

    /**
     * The end of doFilter: the deferred batch is written only for a session
     * that exists and is valid, and only when writes are deferred.
     */
    method WriteDeferred(session: Option<HazelcastHttpSession>, ok: bool)
      requires session.Some? ==> session.value.svc == svc
      modifies SessionSet(session), svc
      ensures !(session.Some? && old(session.value.valid) && config.deferredWrite) ==>
        svc.clusterMap == old(svc.clusterMap) && (session.Some? ==> session.value.localCache == old(session.value.localCache))
      ensures session.Some? && old(session.value.valid) && config.deferredWrite ==>
        var s := session.value;
        && (Changed(old(s.localCache)) || old(s.IsNew()) ==>
             svc.clusterMap == (if old(svc.hasInstance) && ok then Updated(old(svc.clusterMap), s.id, Batch(old(s.localCache))) else old(svc.clusterMap)))
        && (!(Changed(old(s.localCache)) || old(s.IsNew())) ==> svc.clusterMap == old(svc.clusterMap))
      ensures svc.orphanSessions == old(svc.orphanSessions) && svc.Connection() == old(svc.Connection())
      ensures session.Some? ==> session.value.valid == old(session.value.valid)
    {
      if session.Some? && session.value.valid && config.deferredWrite {
        session.value.SessionDeferredWrite(ok);
      }
    }

    /**
     * doFilter, after the application ran on the wrapped request: the
     * session getSession(false) resolves gets its deferred write when it is
     * valid and writes are deferred.
     */
    method DoFilter(req: HazelcastRequestWrapper, uuid: string, ok: bool) returns (session: Option<HazelcastHttpSession>)
      requires req.filter == this && req.Valid()
      modifies req, this, svc, sessions.Values, SessionSet(req.hazelcastSession)
      ensures req.Valid()
      ensures session == req.hazelcastSession && (session.Some? ==> session.value.valid)
    {
      session := req.GetSession(false, uuid, ok);
      WriteDeferred(session, ok);
    }

    /** destroy: forgets every session of this node and shuts the service down when configured to. */
    method Destroy()
      modifies this, svc
      ensures sessions == map[] && originalSessions == map[]
      ensures Valid()
      ensures svc.instanceRunning == (old(svc.instanceRunning) && !(config.shutdownOnDestroy && svc.hasInstance))
      ensures svc.clusterMap == old(svc.clusterMap) && svc.orphanSessions == old(svc.orphanSessions) && svc.hasInstance == old(svc.hasInstance)
    {
      sessions := map[];
      originalSessions := map[];
      if config.shutdownOnDestroy {
        svc.Destroy();
      }
    }
  }

  /* ---------------------------------------------------------------------- */
  /* The request wrapper                                                    */
  /* ---------------------------------------------------------------------- */

  /**
   * HazelcastRequestWrapper: one request as the filter sees it. The request's
   * cookies, the request parameter named like the session cookie, the
   * context path, whether the response is committed, and the id the container
   * would give a session it creates for this request are fixed; the container
   * session, the resolved Hazelcast session and the cookies added to the
   * response change.
   */
  class HazelcastRequestWrapper {
    const filter: WebFilter
    const cookies: seq<Cookie>
    const parameter: Option<string>
    const contextPath: string
    const committed: bool
    const newContainerId: string
    var containerSession: Option<ContainerSession>
    var hazelcastSession: Option<HazelcastHttpSession>
    var addedCookies: seq<SessionCookie>

    ghost predicate Valid()
      reads this, filter
    {
      filter.Valid() && (hazelcastSession.Some? ==> hazelcastSession.value.svc == filter.svc)
    }

    constructor (filter: WebFilter, cookies: seq<Cookie>, parameter: Option<string>, contextPath: string,
                 committed: bool, newContainerId: string, containerSession: Option<ContainerSession>)
      ensures this.filter == filter && this.cookies == cookies && this.parameter == parameter
      ensures this.contextPath == contextPath && this.committed == committed && this.newContainerId == newContainerId
      ensures this.containerSession == containerSession && hazelcastSession == None && addedCookies == []
    {
      this.filter := filter;
      this.cookies := cookies;
      this.parameter := parameter;
      this.contextPath := contextPath;
      this.committed := committed;
      this.newContainerId := newContainerId;
      this.containerSession := containerSession;
      hazelcastSession := None;
      addedCookies := [];
    }

    /** The Hazelcast session id this request carries. */
    function RequestSessionId(): Option<string> {
      SessionIdFromRequest(cookies, parameter, filter.config.cookieName, filter.config.useRequestParameter)
    }

    /** getOriginalSession: the container session, created (new) when asked to and absent. */
    method GetOriginalSession(create: bool) returns (session: Option<ContainerSession>)
      modifies this
      ensures old(containerSession).Some? ==> session == old(containerSession)
      ensures old(containerSession).None? && !create ==> session.None?
      ensures old(containerSession).None? && create ==>
        session.Some? && fresh(session.value) && session.value.id == newContainerId && session.value.isNew
      ensures containerSession == session || (session.None? && containerSession == old(containerSession))
      ensures hazelcastSession == old(hazelcastSession) && addedCookies == old(addedCookies)
    {
      if containerSession.None? && create {
        var c := new ContainerSession(newContainerId, true);
        containerSession := Some(c);
      }
      session := containerSession;
    }

    /** findHazelcastSessionIdFromRequest: the cookie loop, then the request parameter. */
    method FindHazelcastSessionIdFromRequest() returns (id: Option<string>)
      ensures id == RequestSessionId()
    {
      var cookieName := filter.config.cookieName;
      id := None;
      var i := 0;
      while i < |cookies|
        invariant 0 <= i <= |cookies|
        invariant id == None
        invariant forall j | 0 <= j < i :: !EqualsIgnoreCase(cookies[j].name, cookieName)
      {
        if EqualsIgnoreCase(cookies[i].name, cookieName) {
          id := cookies[i].value;
          FirstMatchIs(cookies, cookieName, i);
          break;
        }
        i := i + 1;
      }
      if i == |cookies| {
        FirstMatchNone(cookies, cookieName);
      }
      if id.None? && filter.config.useRequestParameter {
        id := parameter;
      }
    }

    /**
     * readFromCookie: the valid session filed under the id the request
     * carries, when it is not sticky; its clean entries are then marked for
     * reload. A sticky session found this way is kept in hazelcastSession but
     * not returned.
     */
    method ReadFromCookie(ok: bool) returns (session: Option<HazelcastHttpSession>)
      requires Valid()
      modifies this, filter, filter.svc, filter.sessions.Values
      ensures Valid()
      ensures session.Some? ==> session.value in old(filter.sessions.Values)
      ensures session.Some? ==> session == hazelcastSession && session.value.valid && !session.value.stickySession
      ensures session.Some? ==> session.value.localCache == WithReload(old(session.value.localCache))
      ensures RequestSessionId().None? ==>
        && session.None? && hazelcastSession == old(hazelcastSession)
        && filter.sessions == old(filter.sessions) && filter.originalSessions == old(filter.originalSessions)
      ensures RequestSessionId().Some? ==>
        var id := RequestSessionId().value;
        && (hazelcastSession.Some? <==> id in old(filter.sessions) && old(filter.sessions[id].valid))
        && (hazelcastSession.Some? ==> hazelcastSession.value == old(filter.sessions[id]))
        && (session.Some? <==> hazelcastSession.Some? && !hazelcastSession.value.stickySession)
      ensures hazelcastSession != old(hazelcastSession) ==> hazelcastSession.None? || hazelcastSession.value.valid
      ensures filter.sessions.Keys <= old(filter.sessions.Keys) && filter.sessions.Values <= old(filter.sessions.Values)
      ensures containerSession == old(containerSession) && addedCookies == old(addedCookies)
      ensures svc().Connection() == old(svc().Connection())
    {
      var existingHazelcastSessionId := FindHazelcastSessionIdFromRequest();
      if existingHazelcastSessionId.Some? {
        hazelcastSession := filter.GetSessionWithId(existingHazelcastSessionId.value, ok);
        if hazelcastSession.Some? && !hazelcastSession.value.stickySession {
          hazelcastSession.value.UpdateReloadFlag();
          return hazelcastSession;
        }
      }
      return None;
    }

    /**
     * readSessionFromLocal: the session this request already resolved, while
     * it is valid (an invalid one is destroyed and dropped). Otherwise, for a
     * request with a container session, the session filed under the id the
     * request carries or, failing that, under the container session's
     * mapping, with its entries marked for reload when it is not sticky.
     * Without either id, readFromCookie.
     */
    method ReadSessionFromLocal(ok: bool) returns (session: Option<HazelcastHttpSession>)
      requires Valid()
      modifies this, filter, filter.svc, filter.sessions.Values, SessionSet(hazelcastSession)
      ensures Valid()
      ensures session.Some? ==> session.value.valid
      ensures old(hazelcastSession).Some? && old(hazelcastSession.value.valid) ==>
        && session == old(hazelcastSession) && hazelcastSession == old(hazelcastSession)
        && filter.sessions == old(filter.sessions) && filter.originalSessions == old(filter.originalSessions)
        && svc().clusterMap == old(svc().clusterMap) && svc().orphanSessions == old(svc().orphanSessions)
      ensures old(hazelcastSession).Some? && !old(hazelcastSession.value.valid) ==>
        old(hazelcastSession.value.id) !in filter.sessions
      ensures old(hazelcastSession).None? && old(containerSession).Some? ==>
        var key := old(containerSession.value.id);
        var mapped := if key in old(filter.originalSessions) then Some(old(filter.originalSessions[key])) else None;
        var hzId := if RequestSessionId().Some? then RequestSessionId() else mapped;
        hzId.Some? ==>
          && (session.Some? <==> hzId.value in old(filter.sessions) && old(filter.sessions[hzId.value].valid))
          && (session.Some? ==> session.value == old(filter.sessions[hzId.value]))
          && (session.Some? && !session.value.stickySession ==> session.value.localCache == WithReload(old(session.value.localCache)))
      ensures session.Some? ==> session.value in old(filter.sessions.Values) || Some(session.value) == old(hazelcastSession)
      ensures hazelcastSession.Some? ==> hazelcastSession.value.valid
      ensures filter.sessions.Values <= old(filter.sessions.Values)
      ensures containerSession == old(containerSession) && addedCookies == old(addedCookies)
      ensures svc().Connection() == old(svc().Connection())
    {
      if hazelcastSession.Some? && !hazelcastSession.value.valid {
        filter.DestroySession(hazelcastSession.value, true, ok);
        // The container session's own invalidation is not part of this model.
        hazelcastSession := None;
      } else if hazelcastSession.Some? {
        return hazelcastSession;
      }
      var originalSession := GetOriginalSession(false);
      if originalSession.Some? {
        var handled;
        handled, session := ReadFromMapping(originalSession.value.id, ok);
        if handled {
          return;
        }
      }
      session := ReadFromCookie(ok);
    }

    /**
     * The container-session branch of readSessionFromLocal: the session filed
     * under the id the request carries or, failing that, under the container
     * session's mapping, marked for reload when it is not sticky. Without
     * either id nothing is done and the caller goes on to readFromCookie.
     */
    method ReadFromMapping(key: string, ok: bool) returns (handled: bool, session: Option<HazelcastHttpSession>)
      requires Valid()
      modifies this, filter, filter.svc, filter.sessions.Values
      ensures Valid()
      ensures
        var mapped := if key in old(filter.originalSessions) then Some(old(filter.originalSessions[key])) else None;
        var hzId := if RequestSessionId().Some? then RequestSessionId() else mapped;
        && (handled <==> hzId.Some?)
        && (hzId.Some? ==>
          && session == hazelcastSession
          && (session.Some? <==> hzId.value in old(filter.sessions) && old(filter.sessions[hzId.value].valid))
          && (session.Some? ==> session.value == old(filter.sessions[hzId.value])))
      ensures session.Some? ==> session.value in old(filter.sessions.Values) && session.value.valid
      ensures session.Some? && !session.value.stickySession ==> session.value.localCache == WithReload(old(session.value.localCache))
      ensures !handled ==>
        && session.None? && hazelcastSession == old(hazelcastSession)
        && filter.sessions == old(filter.sessions) && filter.originalSessions == old(filter.originalSessions)
      ensures hazelcastSession != old(hazelcastSession) ==> hazelcastSession.None? || hazelcastSession.value.valid
      ensures filter.sessions.Keys <= old(filter.sessions.Keys) && filter.sessions.Values <= old(filter.sessions.Values)
      ensures containerSession == old(containerSession) && addedCookies == old(addedCookies)
      ensures svc().Connection() == old(svc().Connection())
    {
      var hazelcastSessionId := if key in filter.originalSessions then Some(filter.originalSessions[key]) else None;
      var hazelcastSessionIdFromRequest := FindHazelcastSessionIdFromRequest();
      // An id carried by the request overrides the container session's mapping.
      if hazelcastSessionIdFromRequest.Some? && hazelcastSessionIdFromRequest != hazelcastSessionId {
        hazelcastSessionId := hazelcastSessionIdFromRequest;
      }
      if hazelcastSessionId.Some? {
        hazelcastSession := filter.GetSessionWithId(hazelcastSessionId.value, ok);
        if hazelcastSession.Some? && !hazelcastSession.value.stickySession {
          hazelcastSession.value.UpdateReloadFlag();
        }
        return true, hazelcastSession;
      }
      return false, None;
    }

    /**
     * getSession(create): the session resolved from local state; when there
     * is none and the response is not committed, a new one if creation is
     * asked for or the request carries an id. The result is remembered.
     */
    method GetSession(create: bool, uuid: string, ok: bool) returns (session: Option<HazelcastHttpSession>)
      requires Valid()
      modifies this, filter, filter.svc, filter.sessions.Values, SessionSet(hazelcastSession)
      ensures Valid()
      ensures session == hazelcastSession
      ensures session.Some? ==> session.value.valid
      ensures create && !committed ==> session.Some?
      ensures old(containerSession).Some? ==> containerSession == old(containerSession)
      ensures svc().Connection() == old(svc().Connection())
      ensures committed ==> session.None? || session.value in old(filter.sessions.Values) || Some(session.value) == old(hazelcastSession)
      ensures session.Some? ==> session.value in old(filter.sessions.Values) || Some(session.value) == old(hazelcastSession) || fresh(session.value)
      ensures old(hazelcastSession).Some? && old(hazelcastSession.value.valid) ==>
        && session == old(hazelcastSession)
        && filter.sessions == old(filter.sessions) && filter.originalSessions == old(filter.originalSessions)
        && svc().clusterMap == old(svc().clusterMap) && svc().orphanSessions == old(svc().orphanSessions)
        && containerSession == old(containerSession) && addedCookies == old(addedCookies)
    {
      var local := ReadSessionFromLocal(ok);
      hazelcastSession := local;
      var hazelcastSessionId := FindHazelcastSessionIdFromRequest();
      if hazelcastSession.None? && !committed && (create || hazelcastSessionId.Some?) {
        hazelcastSession := filter.CreateNewSession(this, create, hazelcastSessionId, uuid, ok);
      }
      session := hazelcastSession;
    }

    /**
     * changeSessionId: without the container's changeSessionId there is
     * nothing to do and "" is the answer. Otherwise the container session's
     * mapping goes, the session getSession(false) resolves is unfiled and
     * destroyed with invalidation (Failed: there is none, a
     * NullPointerException), the container renames its session, and a new
     * session under a generated id is filed, marked cluster-wide new and
     * given its cookie. The wrapper keeps the old, now invalid, session.
     */
    method ChangeSessionId(hasChangeMethod: bool, uuid: string, newJSessionId: string, ok: bool) returns (r: Outcome<string>)
      requires Valid()
      modifies this, filter, filter.svc, filter.sessions.Values, SessionSet(hazelcastSession), ContainerSet(containerSession)
      ensures Valid()
      ensures !hasChangeMethod ==>
        && r == Done("")
        && filter.sessions == old(filter.sessions) && filter.originalSessions == old(filter.originalSessions)
        && hazelcastSession == old(hazelcastSession) && containerSession == old(containerSession)
      ensures r.Failed? ==> hasChangeMethod && hazelcastSession.None?
      ensures hasChangeMethod && r.Done? ==>
        var newId := SessionIdFrom(uuid);
        && r.value == newJSessionId
        && newId in filter.sessions && fresh(filter.sessions[newId])
        && filter.sessions[newId].valid && filter.sessions[newId].clusterWideNew
        && containerSession.Some? && containerSession.value.id == newJSessionId
        && filter.sessions[newId].originalSession == containerSession.value
        && newJSessionId in filter.originalSessions && filter.originalSessions[newJSessionId] == newId
        && hazelcastSession.Some? && !hazelcastSession.value.valid
        && |addedCookies| > 0 && addedCookies[|addedCookies| - 1] == SessionCookieFor(filter.config, contextPath, newId)
      ensures hasChangeMethod && old(containerSession).Some? && old(hazelcastSession).Some? && old(hazelcastSession.value.valid) ==>
        var oldSession := old(hazelcastSession.value);
        var newId := SessionIdFrom(uuid);
        && r.Done?
        && filter.sessions == (old(filter.sessions) - {oldSession.id})[newId := filter.sessions[newId]]
        && filter.originalSessions == (old(filter.originalSessions) - {old(containerSession.value.id)})[newJSessionId := newId]
        && (svc().clusterMap, svc().orphanSessions) == AfterDelete(old(svc().clusterMap), old(svc().orphanSessions), old(svc().hasInstance) && ok, oldSession.id, true)
    {
      if !hasChangeMethod {
        return Done("");
      }
      var originalSession := GetOriginalSession(true);
      var original := originalSession.value;
      filter.originalSessions := filter.originalSessions - {original.id};
      var current := GetSession(false, uuid, ok);
      if current.None? {
        return Failed;
      }
      filter.UnfileAndInvalidate(current.value, ok);
      RegisterRenamed(original, uuid, newJSessionId, ok);
      r := Done(newJSessionId);
    }

    /**
     * The second half of changeSessionId: the container renames its session,
     * and a new session under a generated id is made for it, marked
     * cluster-wide new, filed in both maps and given its cookie.
     */
    method RegisterRenamed(original: ContainerSession, uuid: string, newJSessionId: string, ok: bool)
      requires Valid()
      modifies this, filter, original
      ensures Valid()
      ensures original.id == newJSessionId
      ensures var newId := SessionIdFrom(uuid);
        && newId in filter.sessions && fresh(filter.sessions[newId])
        && filter.sessions == old(filter.sessions)[newId := filter.sessions[newId]]
        && filter.sessions[newId].valid && filter.sessions[newId].clusterWideNew
        && filter.sessions[newId].originalSession == original
        && filter.originalSessions == old(filter.originalSessions)[newJSessionId := newId]
        && addedCookies == old(addedCookies) + [SessionCookieFor(filter.config, contextPath, newId)]
      ensures hazelcastSession == old(hazelcastSession) && containerSession == old(containerSession)
    {
      var newHazelcastSessionId := GenerateSessionId(uuid);
      // The container renames its own session and answers the new id.
      original.id := newJSessionId;
      var session := filter.CreateHazelcastHttpSession(newHazelcastSessionId, original, ok);
      session.SetClusterWideNew(true);
      filter.UpdateSessionMaps(newJSessionId, session);
      filter.AddSessionCookie(this, newHazelcastSessionId);
    }

    /** The service of the filter this request passes through. */
    function svc(): ClusteredSessionService {
      filter.svc
    }
  }

  lemma FirstMatchIs(cookies: seq<Cookie>, cookieName: string, i: nat)
    requires i < |cookies| && EqualsIgnoreCase(cookies[i].name, cookieName)
    requires forall j | 0 <= j < i :: !EqualsIgnoreCase(cookies[j].name, cookieName)
    ensures FirstMatch(cookies, cookieName) == Some(i)
  {
  }

  lemma FirstMatchNone(cookies: seq<Cookie>, cookieName: string)
    requires forall j | 0 <= j < |cookies| :: !EqualsIgnoreCase(cookies[j].name, cookieName)
    ensures FirstMatch(cookies, cookieName) == None
  {
  }
}
