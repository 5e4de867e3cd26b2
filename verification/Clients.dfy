/** The Modbus client as the collector sees it: calls that fail or are carried out exactly, over a
    device whose image only the collector's own writes change. The log records every exchange. */
module Clients {
  import opened Words
  import opened Devices

  function ReplyOf(r: Option<seq<uint16>>): Reply
  {
    match r
    case None => Failed
    case Some(ws) => Answer(ws)
  }

  class Client {
    var image: Image
    ghost var log: seq<Exchange>

    constructor (image: Image)
      ensures this.image == image && log == []
    {
      this.image := image;
      log := [];
    }

    /** ReadRegisters and, for one register, ReadRegister. */
    method ReadRegisters(bank: Bank, address: uint16, count: uint16) returns (r: Option<seq<uint16>>)
      modifies `log
      ensures log == old(log) + [Exchange(Read(bank, address, count), ReplyOf(r))]
      ensures Honest(image, Exchange(Read(bank, address, count), ReplyOf(r)))
    {
      var lost: bool := *;
      if lost || count == 0 || address as int + count as int > ADDRESSES {
        r := None;
      } else {
        r := Some(Slice(image, bank, address, count));
      }
      log := log + [Exchange(Read(bank, address, count), ReplyOf(r))];
    }

    /** ReadCoils and ReadDiscreteInputs. */
    method ReadBits(bank: Bank, address: uint16, count: uint16) returns (r: Option<seq<bool>>)
      requires bank.Coils? || bank.DiscreteInputs?
      modifies `log
      ensures var e := Exchange(Read(bank, address, count), if r.Some? then Answer(AsWords(r.value)) else Failed);
        log == old(log) + [e] && Honest(image, e)
    {
      var lost: bool := *;
      if lost || count == 0 || address as int + count as int > ADDRESSES {
        r := None;
      } else {
        var bits := if bank.Coils? then image.coils else image.discreteInputs;
        r := Some(bits[address..address + count]);
        assert AsWords(r.value) == Slice(image, bank, address, count);
      }
      log := log + [Exchange(Read(bank, address, count), if r.Some? then Answer(AsWords(r.value)) else Failed)];
    }

    /** WriteCoil and WriteRegisters: an error leaves open whether the device carried the write out. */
    method Write(request: Request) returns (ok: bool)
      requires IsWrite(request)
      modifies this
      ensures log == old(log) + [Exchange(request, if ok then Answer([]) else Failed)]
      ensures ok ==> InTable(request) && image == Apply(old(image), request)
      ensures !ok ==> image == old(image) || image == Apply(old(image), request)
    {
      var lost: bool := *;
      var landed: bool := *;
      if InTable(request) && (landed || !lost) {
        image := Apply(image, request);
      }
      ok := InTable(request) && !lost;
      log := log + [Exchange(request, if ok then Answer([]) else Failed)];
    }

    method Open() returns (ok: bool)
      modifies `log
      ensures log == old(log) + [Exchange(Request.Open, if ok then Answer([]) else Failed)]
    {
      ok := *;
      log := log + [Exchange(Request.Open, if ok then Answer([]) else Failed)];
    }

    method Close() returns (ok: bool)
      modifies `log
      ensures log == old(log) + [Exchange(Request.Close, if ok then Answer([]) else Failed)]
    {
      ok := *;
      log := log + [Exchange(Request.Close, if ok then Answer([]) else Failed)];
    }
  }
}
