/**
 The callbacks the package store works through: a lock, one durable blob and raw NOR
 Flash. Every callback may fail, and a power loss is a callback that fails together with
 all that follow; `faultFree` marks a device on which none does.
 */
module SlotIo {
  import opened Octets
  import opened Bits
  import opened SlotState
  import opened SlotRecord
  import opened SlotProtocol

  datatype BlobRead = Found | NotFound | ReadFailed

  datatype Access = Erased(offset: nat, size: nat) | Wrote(offset: nat, size: nat)

  class Io {
    const flash: array<Byte>
    const faultFree: bool
    var blob: Option<Blob>
    var held: bool
    ghost var accesses: seq<Access>

    constructor (flash: array<Byte>, blob: Option<Blob>, faultFree: bool)
      ensures this.flash == flash && this.blob == blob && this.faultFree == faultFree && !held
    {
      this.flash := flash;
      this.blob := blob;
      this.faultFree := faultFree;
      held := false;
      accesses := [];
    }

    method Lock() returns (ok: bool)
      modifies `held
      ensures ok ==> !old(held) && held
      ensures !ok ==> held == old(held)
      ensures faultFree && !old(held) ==> ok
    {
      ok := *;
      ok := !held && (ok || faultFree);
      held := held || ok;
    }

    method Unlock()
      modifies `held
      ensures !held
    {
      held := false;
    }

    /** Reads the committed record, never a cache of it. */
    method ReadBlob(destination: array<Byte>) returns (status: BlobRead)
      requires destination.Length == BLOB_BYTES
      modifies destination
      ensures status == Found ==> blob == Some(destination[..])
      ensures status == NotFound ==> blob.None?
      ensures faultFree ==> status != ReadFailed
    {
      var ok: bool := *;
      if !ok && !faultFree {
        return ReadFailed;
      }
      if blob.None? {
        return NotFound;
      }
      forall i | 0 <= i < BLOB_BYTES {
        destination[i] := blob.value[i];
      }
      assert destination[..] == blob.value;
      return Found;
    }

    /** Stores the whole record or leaves the old one; what it returns cannot be trusted. */
    method WriteBlob(source: array<Byte>) returns (committed: bool)
      requires source.Length == BLOB_BYTES
      modifies `blob
      ensures blob == old(blob) || blob == Some(source[..])
      ensures faultFree ==> committed && blob == Some(source[..])
    {
      var stored: bool := *;
      committed := *;
      committed := committed || faultFree;
      if stored || faultFree {
        blob := Some(source[..]);
      }
    }

    method FlashRead(offset: nat, destination: array<Byte>, size: nat) returns (ok: bool)
      requires size <= destination.Length && destination != flash
      modifies destination
      ensures ok ==> offset + size <= flash.Length && destination[..size] == flash[offset..offset + size]
      ensures faultFree && offset + size <= flash.Length ==> ok
    {
      ok := *;
      ok := (ok || faultFree) && offset + size <= flash.Length;
      if ok {
        forall i | 0 <= i < size {
          destination[i] := flash[offset + i];
        }
      }
    }

    /** Erasing sets every byte of the range; a failed erase leaves anything there. */
    method FlashErase(offset: U32, size: U32) returns (ok: bool)
      modifies flash, `accesses
      ensures accesses == old(accesses) + [Erased(offset, size)]
      ensures AgreeOutside(old(flash[..]), flash[..], Region(offset, size))
      ensures ok ==> offset + size <= flash.Length
      ensures ok ==> forall i | offset <= i < offset + size :: flash[i] == 0xff
      ensures faultFree && offset + size <= flash.Length ==> ok
    {
      accesses := accesses + [Erased(offset, size)];
      ok := *;
      ok := (ok || faultFree) && offset + size <= flash.Length;
      if ok {
        forall i | offset <= i < offset + size {
          flash[i] := 0xff;
        }
      } else {
        Disturb(offset, size);
      }
    }

    /** Programming only clears bits; a failed write leaves anything in its range. */
    method FlashWrite(offset: nat, source: array<Byte>, size: nat) returns (ok: bool)
      requires size <= source.Length && source != flash
      modifies flash, `accesses
      ensures accesses == old(accesses) + [Wrote(offset, size)]
      ensures |flash[..]| == |old(flash[..])|
      ensures forall i | 0 <= i < flash.Length && !(offset <= i < offset + size) :: flash[i] == old(flash[i])
      ensures ok ==> offset + size <= flash.Length
      ensures ok ==> forall i | offset <= i < offset + size :: flash[i] == And(old(flash[i]), source[i - offset])
      ensures faultFree && offset + size <= flash.Length ==> ok
    {
      accesses := accesses + [Wrote(offset, size)];
      ok := *;
      ok := (ok || faultFree) && offset + size <= flash.Length;
      if ok {
        forall i | offset <= i < offset + size {
          flash[i] := Program(flash[i], source[i - offset]);
        }
      } else {
        Disturb(offset, size);
      }
    }

    method Disturb(offset: nat, size: nat)
      modifies flash
      ensures forall i | 0 <= i < flash.Length && !(offset <= i < offset + size) :: flash[i] == old(flash[i])
    {
      var i := offset;
      while i < offset + size && i < flash.Length
        invariant offset <= i
        invariant forall k | 0 <= k < flash.Length && !(offset <= k < offset + size) :: flash[k] == old(flash[k])
      {
        var b: Byte := *;
        flash[i] := b;
        i := i + 1;
      }
    }

    /** A digest or source callback that may fail without touching anything. */
    method Ready() returns (ok: bool)
      ensures faultFree ==> ok
    {
      ok := *;
      ok := ok || faultFree;
    }
  }

  function Program(before: Byte, data: Byte): Byte {
    AndBound(before, data);
    And(before, data)
  }
}
