/**
 * The output buffer of a connection (src/BufferedWriter.cc): small responses are collected and
 * leave together. The link is an unbounded byte sink.
 */
module BufferedWriter {
  import opened Bytes

  class Sink {
    var bytes: Bytes

    method Send(raw: Bytes)
      modifies this
      ensures bytes == old(bytes) + raw
    {
      bytes := bytes + raw;
    }
  }

  const OUTPUT_BUFFER_SIZE: nat := 16384

  class Writer {
    const link: Sink?
    const buffer: array<byte>
    var bufferedBytes: nat
    var active: bool

    ghost predicate Valid()
      reads this, buffer
    {
      && buffer.Length == OUTPUT_BUFFER_SIZE && bufferedBytes <= OUTPUT_BUFFER_SIZE
      && (active || bufferedBytes == 0) && (link == null ==> bufferedBytes == 0)
    }

    /** What the peer has been given so far, and what waits in the buffer. */
    ghost function Stream(): Bytes
      reads this, buffer, link
      requires Valid()
    {
      (if link == null then [] else link.bytes) + buffer[..bufferedBytes]
    }

    constructor (l: Sink?)
      ensures Valid() && link == l && fresh(buffer) && active
      ensures Stream() == if l == null then [] else l.bytes
    {
      link, bufferedBytes, active := l, 0, true;
      buffer := new byte[OUTPUT_BUFFER_SIZE];
    }

    /** Everything that was sent has reached the link. */
    method Flush()
      requires Valid()
      modifies `bufferedBytes, link
      ensures Valid() && bufferedBytes == 0 && Stream() == old(Stream())
    {
      if link == null || bufferedBytes == 0 {
        return;
      }
      link.Send(buffer[..bufferedBytes]);
      bufferedBytes := 0;
    }

    method SetActive(newval: bool)
      requires Valid()
      modifies this, link
      ensures Valid() && active == newval && Stream() == old(Stream())
      ensures link != null ==> link.bytes == Stream()
    {
      Flush();
      active := newval;
    }

    /** Whatever path a response takes, it comes right after everything sent before. */
    method Send(raw: Bytes)
      requires Valid()
      modifies `bufferedBytes, buffer, link
      ensures Valid() && active == old(active)
      ensures Stream() == if link == null then old(Stream()) else old(Stream()) + raw
      ensures !active && link != null ==> link.bytes == Stream()
    {
      if link == null {
        return;
      }
      if !active {
        link.Send(raw);
        return;
      }
      if |raw| + bufferedBytes > OUTPUT_BUFFER_SIZE {
        Flush();
        if |raw| > OUTPUT_BUFFER_SIZE {
          link.Send(raw);
          return;
        }
      }
      Copy(raw);
    }

    /** The memcpy and the counter. */
    method Copy(raw: Bytes)
      requires Valid() && active && link != null && |raw| + bufferedBytes <= OUTPUT_BUFFER_SIZE
      modifies `bufferedBytes, buffer
      ensures Valid() && bufferedBytes == old(bufferedBytes) + |raw|
      ensures buffer[..bufferedBytes] == old(buffer[..bufferedBytes]) + raw
    {
      forall i | 0 <= i < |raw| {
        buffer[bufferedBytes + i] := raw[i];
      }
      bufferedBytes := bufferedBytes + |raw|;
    }
  }
}
