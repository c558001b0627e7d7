/** The shared pool of HTTP transports. */
module Transport {
  import opened Wrappers

  type TlsConfig = string

  class Transport {
    var tlsConfig: Option<TlsConfig>

    constructor ()
      ensures tlsConfig == None
    {
      tlsConfig := None;
    }
  }

  /** sync.Pool: Get takes any pooled transport or makes one, and the pool may drop transports at will. */
  class Pool {
    var idle: set<Transport>

    constructor ()
      ensures idle == {}
    {
      idle := {};
    }

    /** No pooled transport carries TLS settings. */
    ghost predicate Valid()
      reads this, idle
    {
      forall t :: t in idle ==> t.tlsConfig == None
    }

    method Get() returns (t: Transport)
      requires Valid()
      modifies this
      ensures t.tlsConfig == None && Valid()
      ensures (t in old(idle) && idle == old(idle) - {t}) || (fresh(t) && idle == old(idle))
    {
      if idle != {} {
        if * {
          t :| t in idle;
          idle := idle - {t};
          return;
        }
      }
      t := new Transport();
    }

    method Put(t: Transport)
      modifies this
      ensures idle == old(idle) + {t}
    {
      idle := idle + {t};
    }

    method Drop()
      requires Valid()
      modifies this
      ensures idle <= old(idle) && Valid()
    {
      var kept :| kept <= idle;
      idle := kept;
    }
  }

  /** A transport nobody else has, set up with the given TLS settings. */
  method NewOrIdle(pool: Pool, tlsConfig: Option<TlsConfig>) returns (t: Transport)
    requires pool.Valid()
    modifies pool, pool.idle
    ensures t.tlsConfig == tlsConfig && t !in pool.idle
    ensures (t in old(pool.idle) && pool.idle == old(pool.idle) - {t}) || (fresh(t) && pool.idle == old(pool.idle))
    ensures pool.Valid()
    ensures forall o :: o in old(pool.idle) && o != t ==> o.tlsConfig == old(o.tlsConfig)
  {
    t := pool.Get();
    t.tlsConfig := tlsConfig;
  }

  /** Gives t back without its TLS settings; refuses nil. */
  method Release(pool: Pool, t: Transport?) returns (ok: bool)
    requires pool.Valid()
    modifies pool, t
    ensures ok <==> t != null
    ensures pool.idle == old(pool.idle) + if t == null then {} else {t}
    ensures pool.Valid()
  {
    if t == null {
      return false;
    }
    t.tlsConfig := None;
    pool.Put(t);
    return true;
  }
}
