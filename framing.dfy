/** How one inbound read becomes message text: the received bytes are turned into
    a C++ string (which stops at the first NUL byte) and then lose at most one
    trailing newline and, after that, at most one trailing carriage return. */
module Framing {

  /** Size of the receive buffer of both read handlers. */
  const BUFFER_SIZE: nat := 1024
  /** A read asks for one byte less than the buffer, to leave room for the NUL. */
  const MAX_READ: nat := BUFFER_SIZE - 1

  const NUL: char := '\0'

  /** What `recv`/`recvfrom` promise of a read that asks for MAX_READ bytes:
      a positive count is at most MAX_READ, and is the number of bytes in `bytes`. */
  predicate RecvContract(received: int, bytes: string) {
    received <= MAX_READ && (received > 0 ==> |bytes| == received)
  }

  /** The part of the buffer before the NUL that the handler writes at index
      `received`: the first `received` bytes of what arrived. A read never
      yields more than the MAX_READ bytes it asked for, nor more than arrived. */
  function ReadBytes(received: int, bytes: string): (r: string)
    ensures r <= bytes && |r| <= MAX_READ
    ensures |r| <= received || received <= 0
    ensures RecvContract(received, bytes) && received > 0 ==> r == bytes
  {
    var n := if received <= 0 then 0 else if received <= MAX_READ then received else MAX_READ;
    if n <= |bytes| then bytes[..n] else bytes
  }

  /** The string that `std::string(const char*)` builds from a NUL-terminated
      buffer: the longest prefix without a NUL byte. */
  function CString(bytes: string): (r: string)
    ensures r <= bytes
    ensures NUL !in r
    ensures |r| < |bytes| ==> bytes[|r|] == NUL
  {
    if bytes == [] || bytes[0] == NUL then [] else [bytes[0]] + CString(bytes[1..])
  }

  predicate EndsWith(s: string, suffix: string) {
    |suffix| <= |s| && s[|s| - |suffix|..] == suffix
  }

  predicate EndsWithLineBreak(s: string) {
    |s| > 0 && (s[|s| - 1] == '\n' || s[|s| - 1] == '\r')
  }

  /** The two conditional `pop_back` calls applied to every inbound message. */
  function Trim(s: string): (r: string)
    ensures r <= s && |s| - 2 <= |r|
    ensures r == s <==> !EndsWithLineBreak(s)
  {
    var afterNewline := if |s| > 0 && s[|s| - 1] == '\n' then s[..|s| - 1] else s;
    if |afterNewline| > 0 && afterNewline[|afterNewline| - 1] == '\r' then
      afterNewline[..|afterNewline| - 1]
    else
      afterNewline
  }

  /** Reference definition of what the trim removes, stated by suffix. */
  function TrimmedSuffix(s: string): string {
    if EndsWith(s, "\r\n") then "\r\n"
    else if EndsWith(s, "\n") then "\n"
    else if EndsWith(s, "\r") then "\r"
    else ""
  }

  lemma TrimRemovesTrimmedSuffix(s: string)
    ensures Trim(s) + TrimmedSuffix(s) == s
    ensures |Trim(s)| == |s| - |TrimmedSuffix(s)|
  {
    var n := |s|;
    if n >= 2 && s[n - 2] == '\r' && s[n - 1] == '\n' {
      assert s[n - 2..] == "\r\n";
      assert s[..n - 1][..n - 2] == s[..n - 2];
      assert s[..n - 2] + s[n - 2..] == s;
    } else if n >= 1 && s[n - 1] == '\n' {
      assert s[n - 1..] == "\n";
      assert !EndsWith(s, "\r\n") by {
        if n >= 2 { assert s[n - 2..][0] == s[n - 2]; }
      }
      assert s[..n - 1] + s[n - 1..] == s;
    } else if n >= 1 && s[n - 1] == '\r' {
      assert s[n - 1..] == "\r";
      assert !EndsWith(s, "\r\n") by {
        if n >= 2 { assert s[n - 2..][1] == s[n - 1]; }
      }
      assert !EndsWith(s, "\n") by { assert s[n - 1..][0] == s[n - 1]; }
      assert s[..n - 1] + s[n - 1..] == s;
    } else {
      assert !EndsWith(s, "\r\n") by {
        if n >= 2 { assert s[n - 2..][1] == s[n - 1]; }
      }
      assert !EndsWith(s, "\n") by {
        if n >= 1 { assert s[n - 1..][0] == s[n - 1]; }
      }
      assert !EndsWith(s, "\r") by {
        if n >= 1 { assert s[n - 1..][0] == s[n - 1]; }
      }
    }
  }

  /** The order of the two steps matters, and only one newline goes. */
  lemma TrimExamples()
    ensures Trim("ab\r\n") == "ab"
    ensures Trim("ab\n\r") == "ab\n"
    ensures Trim("ab\n\n") == "ab\n"
    ensures Trim("/time") == "/time"
  {
  }

  /** The message text a handler builds from a read of `received` bytes. */
  function Inbound(received: int, bytes: string): (r: string)
    ensures r <= bytes
    ensures |r| <= MAX_READ && (|r| <= received || received <= 0)
    ensures NUL !in r
  {
    Trim(CString(ReadBytes(received, bytes)))
  }

  /** Bytes after the count that `recv` returned never reach the message. */
  lemma InboundStopsAtCount()
    ensures Inbound(1, "abc") == "a"
    ensures Inbound(3, "ab\nxyz") == "ab"
    ensures Inbound(4, "ab\0c") == "ab"
  {
    assert ReadBytes(1, "abc") == "a";
    assert CString("a") == "a";
    assert ReadBytes(3, "ab\nxyz") == "ab\n";
    assert CString("ab\n") == "ab\n";
    assert ReadBytes(4, "ab\0c") == "ab\0c";
    assert CString("ab\0c") == "ab";
  }

  lemma {:induction false} CStringWithoutNul(bytes: string)
    requires NUL !in bytes
    ensures CString(bytes) == bytes
  {
    if bytes != [] {
      assert bytes[0] in bytes;
      assert NUL !in bytes[1..] by {
        forall i | 0 <= i < |bytes[1..]| ensures bytes[1..][i] != NUL {
          assert bytes[1..][i] == bytes[i + 1];
        }
      }
      CStringWithoutNul(bytes[1..]);
      assert [bytes[0]] + bytes[1..] == bytes;
    }
  }

  /** A whole line as a client sends it, read in one piece, loses exactly its
      newline. */
  lemma InboundLine(line: string)
    requires NUL !in line && !EndsWithLineBreak(line) && |line| < MAX_READ
    ensures Inbound(|line| + 1, line + "\n") == line
  {
    var sent := line + "\n";
    assert ReadBytes(|line| + 1, sent) == sent;
    assert NUL !in sent by {
      forall i | 0 <= i < |sent| ensures sent[i] != NUL {
        if i < |line| { assert sent[i] == line[i]; assert line[i] in line; }
      }
    }
    CStringWithoutNul(sent);
    assert sent[..|sent| - 1] == line;
  }
}
