/** A registered device (crates/domain/src/device.rs): its shard always follows its position. */
module Devices {
  import opened Options
  import opened Locations
  import opened Geohash

  class Device {
    var location: Location
    var geohash: string
    var shardPrefix: string
    const registeredAt: int
    var lastSeen: int

    /** The stored shard is the cell of the stored position, and that cell contains it. */
    ghost predicate Valid()
      reads this
    {
      && location.Valid()
      && geohash == Encode(location, GEOHASH_PRECISION)
      && shardPrefix == Encode(location, SHARD_PREFIX_LENGTH)
    }

    constructor (location: Location, now: int)
      requires location.Valid()
      ensures Valid() && this.location == location && registeredAt == lastSeen == now
    {
      this.location := location;
      var hash := Encode(location, GEOHASH_PRECISION);
      this.geohash := hash;
      this.shardPrefix := ShardPrefixOf(hash);
      this.registeredAt, this.lastSeen := now, now;
      ShardPrefixIsShortEncoding(location);
    }

    /**
     Returns whether the device must move to another shard's worker. A position that
     has no geohash is an error and changes nothing.
     */
    method UpdateLocation(to: Location, now: int) returns (shardChanged: Option<bool>)
      requires Valid()
      modifies this
      ensures Valid() && (shardChanged.Some? <==> to.Valid())
      ensures to.Valid() ==>
                && location == to && lastSeen == now
                && (shardChanged == Some(true) <==>
                      Encode(old(location), SHARD_PREFIX_LENGTH) != Encode(to, SHARD_PREFIX_LENGTH))
      ensures !to.Valid() ==> location == old(location) && lastSeen == old(lastSeen)
    {
      if !to.Valid() {
        return None;
      }
      ShardPrefixIsShortEncoding(to);
      var newGeohash := Encode(to, GEOHASH_PRECISION);
      var newShardPrefix := ShardPrefixOf(newGeohash);
      shardChanged := Some(newShardPrefix != shardPrefix);
      location := to;
      geohash := newGeohash;
      shardPrefix := newShardPrefix;
      lastSeen := now;
    }
  }

  /** `Device::register`: only a position that has a geohash gives a device. */
  method RegisterDevice(location: Location, now: int) returns (device: Option<Device>)
    ensures device.Some? <==> location.Valid()
    ensures device.Some? ==>
              var d := device.value;
              fresh(d) && d.Valid() && d.location == location && d.registeredAt == d.lastSeen == now
  {
    if !location.Valid() {
      return None;
    }
    var d := new Device(location, now);
    device := Some(d);
  }
}
