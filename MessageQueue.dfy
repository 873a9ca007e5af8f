/** The channel table every message queue of the new broker keeps: one reader per channel name,
    created on first save and updated field by field afterwards. The readers themselves (their
    reading, filtering and checksum-checked seeking) belong to the storage back ends and appear
    here only as the channel state they report. */
module ChannelTable {
  import opened Wrappers

  /** A channel description, as saved by a client and as reported by its reader; `None` is a
      Java `null`. */
  datatype Channel = Channel(
    name: string, mask: Option<int>, filter: Option<string>,
    offset: Option<int>, offsetChecksum: Option<string>)

  /** The four keys of `info()`. */
  datatype InfoKey = Mq | MqType | MqMask | MqSize

  datatype InfoValue = Text(s: string) | Mask(m: Option<int>) | Size(n: int)

  /** `IllegalArgumentException` with its message. */
  datatype Fault = IllegalArgument(message: string)

  /** A reader request: one message, or up to `count` of them. */
  datatype ReadRequest = ReadOne(channel: Channel) | ReadMany(channel: Channel, count: int)

  /** The reader state after `saveChannel(ch)` applies the non-null fields of `ch`; `seekOk` is
      whether `seek` returned normally. */
  function Applied(reader: Channel, ch: Channel, seekOk: bool): (r: Channel)
    ensures r.name == reader.name
    ensures r.mask == if ch.mask.Some? then ch.mask else reader.mask
    ensures r.filter == if ch.filter.Some? then ch.filter else reader.filter
    ensures (r.offset, r.offsetChecksum) ==
      if ch.offset.Some? && seekOk then (ch.offset, ch.offsetChecksum) else (reader.offset, reader.offsetChecksum)
  {
    var m := if ch.mask.Some? then reader.(mask := ch.mask) else reader;
    var f := if ch.filter.Some? then m.(filter := ch.filter) else m;
    if ch.offset.Some? && seekOk then f.(offset := ch.offset, offsetChecksum := ch.offsetChecksum) else f
  }

  /** The table after `saveChannel(ch)`. `built` is what `buildChannelReader` gives for a new
      name (`None` when it throws `IOException`, which is logged and swallowed). */
  function Saved(table: map<string, Channel>, ch: Channel, built: Option<Channel>, seekOk: bool): map<string, Channel>
  {
    if ch.name in table then table[ch.name := Applied(table[ch.name], ch, seekOk)]
    else match built
      case None => table
      case Some(b) => table[ch.name := Applied(b, ch, seekOk)]
  }

  /** A save touches only its own entry, adds at most that key, and never removes one. */
  lemma SavedTouchesOneEntry(table: map<string, Channel>, ch: Channel, built: Option<Channel>, seekOk: bool)
    ensures var t := Saved(table, ch, built, seekOk);
      t.Keys == (if ch.name in table || built.Some? then table.Keys + {ch.name} else table.Keys) &&
      forall k :: k in table && k != ch.name ==> t[k] == table[k]
  {
  }

  /** Saving the same name again never creates a second reader: the first `built` is kept. */
  lemma SaveIsIdempotentCreate(table: map<string, Channel>, ch: Channel, built1: Option<Channel>, built2: Option<Channel>, seekOk: bool)
    requires ch.name !in table && built1.Some?
    ensures var t := Saved(table, ch, built1, seekOk);
      ch.name in t && Saved(t, ch, built2, seekOk).Keys == t.Keys &&
      Saved(t, ch, built2, seekOk)[ch.name].name == built1.value.name
  {
  }

  /** A channel whose optional fields are all null changes nothing about an existing reader. */
  lemma SaveOfNullsKeepsReader(table: map<string, Channel>, name: string, built: Option<Channel>, seekOk: bool)
    requires name in table
    ensures Saved(table, Channel(name, None, None, None, None), built, seekOk) == table
  {
    var t := Saved(table, Channel(name, None, None, None, None), built, seekOk);
    assert t.Keys == table.Keys;
  }

  /** Saving the same channel twice is the same as saving it once (for a seek that succeeds). */
  lemma SaveTwiceIsSaveOnce(table: map<string, Channel>, ch: Channel, built: Option<Channel>)
    ensures var t := Saved(table, ch, built, true); Saved(t, ch, built, true) == t
  {
    var t := Saved(table, ch, built, true);
    if ch.name in t {
      assert Applied(t[ch.name], ch, true) == t[ch.name];
      assert t[ch.name := t[ch.name]] == t;
    }
  }

  class AbstractMessageQueue {
    const name: string
    var channelTable: map<string, Channel>
    /** The names of the readers `destroy` was called on, in order. */
    var destroyed: seq<string>

    constructor (name: string)
      ensures this.name == name && channelTable == map[] && destroyed == []
    {
      this.name := name;
      channelTable, destroyed := map[], [];
    }

    /** `info()`, with the subclass's `type()`, `getMask()` and `size()` passed in. */
    method Info(mqType: string, mask: Option<int>, size: int) returns (info: map<InfoKey, InfoValue>)
      ensures info.Keys == {Mq, MqType, MqMask, MqSize}
      ensures info[Mq] == Text(name) && info[MqType] == Text(mqType)
      ensures info[MqMask] == Mask(mask) && info[MqSize] == Size(size)
    {
      info := map[];
      info := info[Mq := Text(name)];
      info := info[MqType := Text(mqType)];
      info := info[MqMask := Mask(mask)];
      info := info[MqSize := Size(size)];
    }

    /** `read(channelId)`: hand the request to the channel's reader. */
    method Read(channelId: string) returns (r: Result<ReadRequest, Fault>)
      ensures r.Ok? <==> channelId in channelTable
      ensures r.Ok? ==> r.value == ReadOne(channelTable[channelId])
      ensures r.Err? ==> r.error == IllegalArgument("Missing channel: " + channelId)
    {
      if channelId !in channelTable {
        return Err(IllegalArgument("Missing channel: " + channelId));
      }
      return Ok(ReadOne(channelTable[channelId]));
    }

    /** `read(channelId, count)`. */
    method ReadCount(channelId: string, count: int) returns (r: Result<ReadRequest, Fault>)
      ensures r.Ok? <==> channelId in channelTable
      ensures r.Ok? ==> r.value == ReadMany(channelTable[channelId], count)
      ensures r.Err? ==> r.error == IllegalArgument("Missing channel: " + channelId)
    {
      if channelId !in channelTable {
        return Err(IllegalArgument("Missing channel: " + channelId));
      }
      return Ok(ReadMany(channelTable[channelId], count));
    }

    /** `channel(channelId)`: the reader's channel, or null. */
    method ChannelOf(channelId: string) returns (r: Option<Channel>)
      ensures r.Some? <==> channelId in channelTable
      ensures r.Some? ==> r.value == channelTable[channelId]
    {
      if channelId !in channelTable {
        return None;
      }
      return Some(channelTable[channelId]);
    }

    /** `saveChannel(channel)`. */
    method SaveChannel(ch: Channel, built: Option<Channel>, seekOk: bool)
      modifies this`channelTable
      ensures channelTable == Saved(old(channelTable), ch, built, seekOk)
    {
      var reader: Channel;
      if ch.name in channelTable {
        reader := channelTable[ch.name];
      } else {
        if built.None? {
          return;
        }
        reader := built.value;
      }
      if ch.mask.Some? {
        reader := reader.(mask := ch.mask);
      }
      if ch.filter.Some? {
        reader := reader.(filter := ch.filter);
      }
      if ch.offset.Some? && seekOk {
        reader := reader.(offset := ch.offset, offsetChecksum := ch.offsetChecksum);
      }
      channelTable := channelTable[ch.name := reader];
    }

    /** `removeChannel(channelId)`: drop the entry and destroy its reader if there was one. */
    method RemoveChannel(channelId: string)
      modifies this`channelTable, this`destroyed
      ensures channelTable == old(channelTable) - {channelId}
      ensures destroyed == old(destroyed) + if channelId in old(channelTable) then [channelId] else []
    {
      var present := channelId in channelTable;
      channelTable := channelTable - {channelId};
      if present {
        destroyed := destroyed + [channelId];
      }
    }

    /** `channels()`. */
    method Channels() returns (names: set<string>)
      ensures forall n :: n in names <==> n in channelTable
    {
      names := channelTable.Keys;
    }
  }
}
