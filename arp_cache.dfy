/**
 * The ARP cache of arpcache.h (arp_cache, arp_enter, arp_init), whose code
 * is not part of this model: an IPv4 address to hardware address table.
 * Its replacement policy is unknown, so inserting a new address may evict
 * other entries but never invents or alters one.
 */
module ArpCacheModel {
  import opened StingTypes

  /** A cache key: an IPv4 address. */
  datatype IpKey = IpKey(addr: bv32)

  class ArpCache {
    var table: map<IpKey, Mac>

    constructor ()
      ensures table == map[]
    {
      table := map[];
    }

    /** arp_cache(ip): the cached hardware address, or NULL. */
    function Lookup(ip: bv32): (r: Option<Mac>)
      reads this
      ensures r.Some? <==> IpKey(ip) in table
      ensures r.Some? ==> r.value == table[IpKey(ip)]
    {
      if IpKey(ip) in table then Some(table[IpKey(ip)]) else None
    }

    /** arp_enter(ip, ether) for an address not yet cached. */
    method Enter(ip: bv32, ether: Mac)
      modifies this`table
      ensures IpKey(ip) in table && table[IpKey(ip)] == ether
      ensures forall a :: a in table && a != IpKey(ip) ==> a in old(table) && table[a] == old(table)[a]
    {
      table := table[IpKey(ip) := ether];
    }

    /** memcpy(cachedEther, ether, ETH_ALEN): overwrite a cached entry in place. */
    method Update(ip: bv32, ether: Mac)
      requires IpKey(ip) in table
      modifies this`table
      ensures table == old(table)[IpKey(ip) := ether]
      ensures table.Keys == old(table).Keys
    {
      table := table[IpKey(ip) := ether];
    }

    /** arp_init(): empty the cache (CTL_ETHER_CLR_ARPTABLE). */
    method Init()
      modifies this`table
      ensures table == map[]
    {
      table := map[];
    }
  }
}
