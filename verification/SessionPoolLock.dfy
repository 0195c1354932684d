/** The sections of the session pool that run under its lock, as they change the shared map. */
module SessionPoolLock {
  import opened SessionPool

  class RemoteExecSessionPool {
    var sessions: Sessions
    const maxCachedSessions: nat

    constructor (maxCachedSessions: nat)
      ensures sessions == map[] && this.maxCachedSessions == maxCachedSessions
    {
      this.sessions := map[];
      this.maxCachedSessions := maxCachedSessions;
    }

    /** `invalidate_handle`: pointer identity decides, so a newer session under the same id stays. */
    method InvalidateHandle(connectionId: ConnectionId, handle: Handle) returns (stale: seq<Handle>)
      modifies this`sessions
      ensures Section(sessions, stale) == Invalidated(old(sessions), connectionId, handle.session)
      ensures connectionId !in old(sessions) || old(sessions)[connectionId].session != handle.session ==>
                sessions == old(sessions) && stale == []
      ensures connectionId in old(sessions) && old(sessions)[connectionId].session == handle.session ==>
                sessions == old(sessions) - {connectionId} && stale == [old(sessions)[connectionId]]
    {
      stale := [];
      if connectionId in sessions {
        var current := sessions[connectionId];
        if current.session == handle.session {
          stale := [current];
          sessions := sessions - {connectionId};
        }
      }
    }

    /** `invalidate_connection`. */
    method InvalidateConnection(connectionId: ConnectionId) returns (stale: seq<Handle>)
      modifies this`sessions
      ensures Section(sessions, stale) == Removed(old(sessions), connectionId)
      ensures sessions == old(sessions) - {connectionId}
      ensures stale == if connectionId in old(sessions) then [old(sessions)[connectionId]] else []
    {
      stale := [];
      if connectionId in sessions {
        stale := [sessions[connectionId]];
        sessions := sessions - {connectionId};
      }
    }

    /** The map section of `connect_and_store`. */
    method Store(newHandle: Handle) returns (handle: Handle, stale: seq<Handle>)
      modifies this`sessions
      ensures Section(sessions, stale) == Stored(old(sessions), newHandle)
      ensures handle == StoredHandle(old(sessions), newHandle)
      ensures newHandle.connectionId in sessions && sessions[newHandle.connectionId] == handle
      ensures var id := newHandle.connectionId;
              if id in old(sessions) && old(sessions)[id].signature == newHandle.signature then
                sessions == old(sessions) && handle == old(sessions)[id] && stale == [newHandle]
              else
                && sessions == old(sessions)[id := newHandle] && handle == newHandle
                && stale == if id in old(sessions) then [old(sessions)[id]] else []
    {
      var id := newHandle.connectionId;
      if id in sessions {
        var existing := sessions[id];
        if existing.signature == newHandle.signature {
          return existing, [newHandle];
        }
        sessions := sessions[id := newHandle];
        return newHandle, [existing];
      }
      sessions := sessions[id := newHandle];
      return newHandle, [];
    }

    /** The map section of `prune_extra_sessions`; which surplus ids go first is left open. What such a choice comes to
        is `EvictsExactly`. */
    method PruneExtra(active: ConnectionId) returns (stale: seq<Handle>, ghost evicted: seq<ConnectionId>)
      modifies this`sessions
      ensures Evicts(old(sessions), active, maxCachedSessions, evicted)
      ensures Section(sessions, stale) == Evicted(old(sessions), evicted)
    {
      stale, evicted := [], [];
      if maxCachedSessions == 0 || |sessions| < maxCachedSessions {
        return;
      }
      var removeCount := |sessions| - (maxCachedSessions - 1);
      var staleIds := sessions.Keys - {active};
      ghost var others := staleIds;
      while |stale| < removeCount && staleIds != {}
        invariant staleIds <= others && staleIds <= sessions.Keys
        invariant |stale| == |evicted| <= removeCount
        invariant |evicted| + |staleIds| == |others|
        invariant forall i :: 0 <= i < |evicted| ==> evicted[i] in others && evicted[i] !in staleIds
        invariant forall i, j :: 0 <= i < j < |evicted| ==> evicted[i] != evicted[j]
        invariant Section(sessions, stale) == Evicted(old(sessions), evicted)
        decreases |staleIds|
      {
        var id :| id in staleIds;
        EvictedPush(old(sessions), evicted, id);
        stale := stale + [sessions[id]];
        sessions := sessions - {id};
        evicted := evicted + [id];
        staleIds := staleIds - {id};
      }
    }
  }

  lemma EvictedPush(sessions: Sessions, ids: seq<ConnectionId>, id: ConnectionId)
    ensures var before := Evicted(sessions, ids); var last := Removed(before.sessions, id);
      Evicted(sessions, ids + [id]) == Section(last.sessions, before.owed + last.owed)
  {
    assert (ids + [id])[..|ids|] == ids;
  }
}
