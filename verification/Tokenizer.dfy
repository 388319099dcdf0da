/** The character buffer of src/tokenizer.c and the number rule on top of it. */
module Tokenizer {
  import opened Wrappers
  import opened NumberGrammar

  class Tokenizer {
    var buf: array<char>
    var feof: bool
    var stream: string   // what fgetc will still return
    ghost var len: nat   // characters in the buffer before its terminator

    ghost predicate Valid()
      reads this, buf
    {
      && len + 1 < buf.Length && buf[len] == NUL
      && NUL !in buf[..len] && (feof || NUL !in stream)
    }

    /** The token: the characters up to the terminator. */
    ghost function Token(): string
      requires Valid()
      reads this, buf
    {
      buf[..len]
    }

    /** All that buf_get_char can still deliver. Once the end was seen it no longer asks the stream. */
    ghost function Text(): string
      requires Valid()
      reads this, buf
    {
      buf[..len] + if feof then [] else stream
    }

    constructor (stream: string)
      requires NUL !in stream
      ensures Valid() && fresh(buf) && Token() == [] && Text() == stream
    {
      buf, len := new char[10](_ => NUL), 0;
      feof, this.stream := false, stream;
    }

    /** Writes one character, doubling the buffer when fewer than two places would be left. */
    method SetChar(i: nat, ch: char)
      requires buf.Length >= 2 && i < buf.Length
      modifies this`buf, buf
      ensures i + 1 < buf.Length && (buf == old(buf) || fresh(buf)) && buf.Length >= old(buf.Length)
      ensures buf[i] == ch && forall k: nat :: k < old(buf.Length) && k != i ==> buf[k] == old(buf[k])
    {
      if i + 1 >= buf.Length {
        buf := new char[buf.Length * 2](k requires 0 <= k reads this, buf => if k < buf.Length then buf[k] else NUL);
      }
      buf[i] := ch;
    }

    /** Reads the next character from the stream when i is the place of the terminator. */
    method GetChar(i: nat) returns (ch: char)
      requires Valid() && i <= len
      modifies this`buf, this`feof, this`stream, this`len, buf
      ensures Valid() && Text() == old(Text()) && ch == At(Text(), i) && (buf == old(buf) || fresh(buf))
      ensures old(Near(i)) ==> Looked(i)
      ensures i < old(len) ==> len == old(len) && feof == old(feof)
      ensures EndKept(old(feof), old(stream))
    {
      if buf[i] == NUL && !feof {
        assert i == len;
        if stream == [] {
          feof := true;
          return NUL;
        }
        ghost var t := Text();
        var c := stream[0];
        stream := stream[1..];
        SetChar(i, c);
        SetChar(i + 1, NUL);
        len := len + 1;
        assert buf[..len] == t[..len];
      }
      ch := buf[i];
    }

    /** Nothing behind the place i has been read. */
    ghost predicate Near(i: nat)
      requires Valid()
      reads this, buf
    {
      i <= len <= i + 1 && (feof ==> i >= |Text()|)
    }

    /** The character at i is in the buffer, or the input ends there. */
    ghost predicate Looked(i: nat)
      requires Valid()
      reads this, buf
    {
      Near(i) && if i < |Text()| then len == i + 1 else feof
    }

    /** What the rules tried before leave in the buffer: of a text that could be a number, only the first
        character. */
    ghost predicate Ready()
      requires Valid()
      reads this, buf
    {
      Near(0) || !(At(Text(), 0) == '-' || IsDigit(At(Text(), 0)))
    }

    /** The digit loops of is_number. */
    method SkipDigits(i: nat) returns (j: nat)
      requires Valid() && Near(i)
      modifies this`buf, this`feof, this`stream, this`len, buf
      ensures Valid() && Text() == old(Text()) && j == DigitsEnd(Text(), i) && Looked(j)
      ensures (buf == old(buf) || fresh(buf)) && EndKept(old(feof), old(stream))
    {
      j := i;
      var ch := GetChar(j);
      while IsDigit(ch)
        invariant Valid() && Text() == old(Text()) && ch == At(Text(), j) && Looked(j)
        invariant DigitsEnd(Text(), i) == DigitsEnd(Text(), j)
        invariant (buf == old(buf) || fresh(buf)) && EndKept(old(feof), old(stream))
        decreases |Text()| - j
      {
        j := j + 1;
        ch := GetChar(j);
      }
    }

    /** What reading does to the end of the input. */
    ghost predicate EndKept(feof0: bool, stream0: string)
      reads this
    {
      if feof0 then feof && stream == stream0 else feof ==> stream == []
    }

    /** The integer part of is_number: the place behind it, or none. */
    method ScanInt() returns (r: Option<nat>)
      requires Valid() && Ready()
      modifies this`buf, this`feof, this`stream, this`len, buf
      ensures Valid() && Text() == old(Text()) && (buf == old(buf) || fresh(buf)) && EndKept(old(feof), old(stream))
      ensures r == if IntEnd(Text()) == SignEnd(Text()) then None else Some(IntEnd(Text()))
      ensures r.Some? ==> Near(r.value)
    {
      var total: nat := 0;
      var ch := GetChar(0);
      if ch == '-' {
        total := 1;
      }
      ch := GetChar(total);
      if ch == '0' {
        return Some(total + 1);
      } else if IsDigit(ch) {
        total := SkipDigits(total + 1);
        return Some(total);
      }
      return None;
    }

    /** The fraction, from behind the integer part. */
    method ScanFrac(total: nat) returns (r: Option<nat>)
      requires Valid() && total == IntEnd(Text()) && Near(total)
      modifies this`buf, this`feof, this`stream, this`len, buf
      ensures Valid() && Text() == old(Text()) && (buf == old(buf) || fresh(buf)) && EndKept(old(feof), old(stream))
      ensures r == if At(Text(), total) == '.' && FracEnd(Text()) == total + 1 then None else Some(FracEnd(Text()))
      ensures r.Some? ==> Near(r.value)
    {
      var ch := GetChar(total);
      if ch != '.' {
        return Some(total);
      }
      var end := SkipDigits(total + 1);
      return if end == total + 1 then None else Some(end);
    }

    /** The exponent, from behind the fraction. */
    method ScanExp(total: nat) returns (r: Option<nat>)
      requires Valid() && total == FracEnd(Text()) && Near(total)
      modifies this`buf, this`feof, this`stream, this`len, buf
      ensures Valid() && Text() == old(Text()) && (buf == old(buf) || fresh(buf)) && EndKept(old(feof), old(stream))
      ensures r == LastPart(Text())
      ensures r.Some? ==> Near(r.value)
    {
      LastPartIs(Text(), total);
      hide LastPart, ExpTail;
      var ch := GetChar(total);
      r := Some(total);
      if IsE(ch) {
        r := ScanExpDigits(total);
      }
    }

    /** Behind an e: a sign if there is one, and digits, at least one. */
    method ScanExpDigits(total: nat) returns (r: Option<nat>)
      requires Valid() && Looked(total) && total < len
      modifies this`buf, this`feof, this`stream, this`len, buf
      ensures Valid() && Text() == old(Text()) && (buf == old(buf) || fresh(buf)) && EndKept(old(feof), old(stream))
      ensures r == ExpTail(Text(), total)
      ensures r.Some? ==> Near(r.value)
    {
      var ch := GetChar(total + 1);
      hide IsDigit, DigitsEnd;
      var end := SkipDigits(if IsSign(ch) then total + 2 else total + 1);
      ch := GetChar(end - 1);
      r := if IsDigit(ch) then Some(end) else None;
    }

    /** ungetc of the character behind the token, and the terminator in its place. */
    method PushBack(total: nat)
      requires Valid() && Near(total)
      modifies this`buf, this`feof, this`stream, this`len, buf
      ensures Valid() && Text() == old(Text()) && (buf == old(buf) || fresh(buf))
      ensures total <= |Text()| && Token() == Text()[..total] && (!feof ==> Token() + stream == Text())
      ensures feof ==> (total == |Text()| && stream == [NUL] + if old(feof) then old(stream) else [])
    {
      ghost var t := Text();
      var ch := GetChar(total);
      assert buf[..len] == t[..len];
      assert !feof ==> t[..len] == t[..total] + [ch];
      assert !feof ==> t == t[..total] + ([ch] + stream);
      stream := [ch] + stream;
      SetChar(total, NUL);
      len := total;
      assert buf[..len] == t[..total];
      assert feof ==> t[..total] + [] == t;
    }

    /** is_number. It reads no more than one character past the token and gives that one back; at the
        end of the input it gives back a NUL, which is never read. A rejected text is left as it was. */
    method IsNumber() returns (r: bool)
      requires Valid() && Ready()
      modifies this`buf, this`feof, this`stream, this`len, buf
      ensures Valid() && Text() == old(Text())
      ensures r <==> Recognise(Text()).Some?
      ensures r ==> |Token()| == Recognise(Text()).value <= |Text()| && Token() == Text()[..|Token()|]
      ensures r && !feof ==> Token() + stream == Text()
      ensures r && feof ==> Token() == Text() && stream == [NUL] + if old(feof) then old(stream) else []
    {
      hide Valid, Text, Token, IntEnd, SignEnd, FracEnd, LastPart;
      var total := ScanInt();
      if total.None? {
        return false;
      }
      total := ScanFrac(total.value);
      if total.None? {
        return false;
      }
      total := ScanExp(total.value);
      if total.None? {
        return false;
      }
      PushBack(total.value);
      return true;
    }
  }
}
