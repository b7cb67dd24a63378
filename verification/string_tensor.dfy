/** Decoding of the runtime's string-tensor representation
    (`Value::get_tensor_data_str`): all strings concatenated into one byte
    buffer of `non_null_bytes` bytes, plus the start offset of each string. */
module StringTensor {
  import opened OrtTypes
  import opened Utf8

  /** The (start, end) window of every string: the starts zipped with the
      starts chained with the total byte count, skipping the first. */
  function Windows(offsets: seq<usize>, nonNullBytes: usize): (w: seq<(usize, usize)>)
    ensures |w| == |offsets|
    ensures forall i :: 0 <= i < |w| ==> w[i].0 == offsets[i]
  {
    var ends := (offsets + [nonNullBytes])[1..];
    seq(|offsets|, i requires 0 <= i < |offsets| => (offsets[i], ends[i]))
  }

  /** The `scan` over the windows: each step splits `end - start` bytes off
      the front of what is left and converts them to a `String`. The first
      window that underflows, overruns the buffer or is not UTF-8 panics. */
  function Scan(windows: seq<(usize, usize)>, rest: seq<byte>): (r: Outcome<seq<seq<byte>>>)
    ensures r.Ok? ==> |r.value| == |windows|
    ensures !r.Err?
    decreases |windows|
  {
    if windows == [] then Ok([])
    else
      var start, end := windows[0].0, windows[0].1;
      if end < start then Panic(SubtractOverflow)
      else if end - start > |rest| then Panic(SplitOutOfBounds)
      else
        var piece, rest' := rest[..end - start], rest[end - start..];
        if !ValidUtf8(piece) then Panic(FromUtf8Failed)
        else
          var tail := Scan(windows[1..], rest');
          if tail.Ok? then Ok([piece] + tail.value) else tail
  }

  /** The strings of a string tensor, in index order, from its byte buffer and
      start offsets. */
  function Decode(offsets: seq<usize>, nonNullBytes: usize, buf: seq<byte>): (r: Outcome<seq<seq<byte>>>)
    requires |buf| == nonNullBytes
    ensures r.Ok? ==> |r.value| == |offsets|
    ensures !r.Err?
  {
    Scan(Windows(offsets, nonNullBytes), buf)
  }

  // ----- Specification of the decode in terms of string boundaries -----

  ghost predicate NonDecreasing(b: seq<int>)
  {
    forall i, j :: 0 <= i <= j < |b| ==> b[i] <= b[j]
  }

  /** Consecutive boundaries as windows. */
  function Pairs(b: seq<usize>): (w: seq<(usize, usize)>)
    requires |b| >= 1
    ensures |w| == |b| - 1
  {
    seq(|b| - 1, i requires 0 <= i < |b| - 1 => (b[i], b[i + 1]))
  }

  /** Boundaries `b` cut a prefix of `rest` into consecutive pieces. */
  ghost predicate Fits(b: seq<int>, rest: seq<byte>)
  {
    |b| >= 1 && NonDecreasing(b) && b[|b| - 1] - b[0] <= |rest|
  }

  /** The `k`-th piece: bytes `b[k] .. b[k+1]`, counted from `b[0]`. */
  ghost function Piece(b: seq<int>, rest: seq<byte>, k: nat): seq<byte>
    requires Fits(b, rest) && k < |b| - 1
  {
    rest[b[k] - b[0] .. b[k + 1] - b[0]]
  }

  /** Boundaries that fit, and cut only valid UTF-8 pieces. */
  ghost predicate Splits(b: seq<int>, rest: seq<byte>)
  {
    Fits(b, rest) && forall k :: 0 <= k < |b| - 1 ==> ValidUtf8(Piece(b, rest, k))
  }

  lemma WindowsArePairs(offsets: seq<usize>, nonNullBytes: usize)
    ensures Windows(offsets, nonNullBytes) == Pairs(offsets + [nonNullBytes])
  {
  }

  /** One step of the scan over consecutive boundaries: cutting the first
      piece off leaves the remaining boundaries over the remaining bytes. */
  lemma FitsStep(b: seq<int>, rest: seq<byte>)
    requires |b| >= 2 && b[0] <= b[1] && b[1] - b[0] <= |rest|
    ensures Fits(b, rest) <==> Fits(b[1..], rest[b[1] - b[0]..])
    ensures Fits(b, rest) ==> Piece(b, rest, 0) == rest[..b[1] - b[0]]
  {
    var b', rest' := b[1..], rest[b[1] - b[0]..];
    if Fits(b', rest') {
      forall i, j | 0 <= i <= j < |b| ensures b[i] <= b[j] {
        if i > 0 {
          assert b[i] == b'[i - 1] && b[j] == b'[j - 1];
        } else if j > 0 {
          assert b[1] == b'[0] && b[j] == b'[j - 1];
        }
      }
    }
  }

  /** After the first piece is cut off, piece `k` of the rest is piece `k + 1`
      of the whole. */
  lemma PieceStep(b: seq<int>, rest: seq<byte>, k: nat)
    requires |b| >= 2 && b[0] <= b[1] && b[1] - b[0] <= |rest|
    requires Fits(b, rest) && k < |b| - 2
    ensures Fits(b[1..], rest[b[1] - b[0]..])
    ensures Piece(b[1..], rest[b[1] - b[0]..], k) == Piece(b, rest, k + 1)
  {
    FitsStep(b, rest);
    var b', rest' := b[1..], rest[b[1] - b[0]..];
    assert rest'[b'[k] - b'[0] .. b'[k + 1] - b'[0]] == rest[b[k + 1] - b[0] .. b[k + 2] - b[0]];
  }

  /** Boundaries split the buffer exactly when the first piece is valid and
      the remaining boundaries split the remaining bytes. */
  lemma SplitsStep(b: seq<int>, rest: seq<byte>)
    requires |b| >= 2 && b[0] <= b[1] && b[1] - b[0] <= |rest|
    ensures Splits(b, rest) <==>
      ValidUtf8(rest[..b[1] - b[0]]) && Splits(b[1..], rest[b[1] - b[0]..])
  {
    FitsStep(b, rest);
    var rest' := rest[b[1] - b[0]..];
    if ValidUtf8(rest[..b[1] - b[0]]) && Splits(b[1..], rest') {
      forall k | 0 <= k < |b| - 1 ensures ValidUtf8(Piece(b, rest, k)) {
        if k > 0 {
          PieceStep(b, rest, k - 1);
        }
      }
    }
    if Splits(b, rest) {
      forall k | 0 <= k < |b| - 2 ensures ValidUtf8(Piece(b[1..], rest', k)) {
        PieceStep(b, rest, k);
      }
    }
  }

  /** A first window that runs backwards, overruns the buffer or cuts
      invalid UTF-8 stops the scan, and those boundaries do not split. */
  lemma ScanStopsEarly(b: seq<usize>, rest: seq<byte>)
    requires |b| >= 2
    requires b[1] < b[0] || b[1] - b[0] > |rest| || !ValidUtf8(rest[..b[1] - b[0]])
    ensures !Scan(Pairs(b), rest).Ok? && !Splits(b, rest)
  {
    assert Pairs(b)[0] == (b[0], b[1]);
    if b[1] < b[0] {
      assert !NonDecreasing(b);
    } else if b[1] - b[0] > |rest| {
      assert NonDecreasing(b) ==> b[1] <= b[|b| - 1];
    } else {
      SplitsStep(b, rest);
    }
  }

  /** When the first window is sound, the scan keeps its piece and goes on
      with the remaining boundaries over the remaining bytes. */
  lemma ScanStep(b: seq<usize>, rest: seq<byte>)
    requires |b| >= 2 && b[0] <= b[1] && b[1] - b[0] <= |rest| && ValidUtf8(rest[..b[1] - b[0]])
    ensures Scan(Pairs(b), rest).Ok? <==> Scan(Pairs(b[1..]), rest[b[1] - b[0]..]).Ok?
    ensures Scan(Pairs(b), rest).Ok? ==>
      Scan(Pairs(b), rest).value == [rest[..b[1] - b[0]]] + Scan(Pairs(b[1..]), rest[b[1] - b[0]..]).value
  {
    var w := Pairs(b);
    assert w[0] == (b[0], b[1]);
    assert w[1..] == Pairs(b[1..]);
    ScanCons(w, rest, b[1] - b[0]);
  }

  /** One step of the scan, for a first window of `len` bytes that the scan
      accepts. */
  lemma ScanCons(windows: seq<(usize, usize)>, rest: seq<byte>, len: nat)
    requires |windows| >= 1 && windows[0].0 <= windows[0].1 && len == windows[0].1 - windows[0].0
    requires len <= |rest| && ValidUtf8(rest[..len])
    ensures Scan(windows, rest).Ok? <==> Scan(windows[1..], rest[len..]).Ok?
    ensures Scan(windows, rest).Ok? ==> Scan(windows, rest).value == [rest[..len]] + Scan(windows[1..], rest[len..]).value
  {
  }

  /** Scanning consecutive windows succeeds exactly when the boundaries never
      decrease, stay within the buffer, and cut valid UTF-8. */
  lemma {:induction false} ScanSucceeds(b: seq<usize>, rest: seq<byte>)
    requires |b| >= 1
    ensures Scan(Pairs(b), rest).Ok? <==> Splits(b, rest)
    decreases |b|
  {
    if |b| == 1 {
      assert Pairs(b) == [];
    } else if b[1] < b[0] || b[1] - b[0] > |rest| || !ValidUtf8(rest[..b[1] - b[0]]) {
      ScanStopsEarly(b, rest);
    } else {
      var rest' := rest[b[1] - b[0]..];
      assert Scan(Pairs(b), rest).Ok? <==> Scan(Pairs(b[1..]), rest').Ok? by {
        ScanStep(b, rest);
      }
      assert Splits(b, rest) <==> Splits(b[1..], rest') by {
        SplitsStep(b, rest);
      }
      ScanSucceeds(b[1..], rest');
    }
  }

  /** A successful scan returns, as string `k`, the bytes between boundaries
      `k` and `k + 1`. */
  lemma {:induction false} ScanPieces(b: seq<usize>, rest: seq<byte>)
    requires |b| >= 1 && Scan(Pairs(b), rest).Ok? && Fits(b, rest)
    ensures forall k :: 0 <= k < |b| - 1 ==> Scan(Pairs(b), rest).value[k] == Piece(b, rest, k)
    decreases |b|
  {
    if |b| == 1 {
      return;
    }
    assert b[0] <= b[1] <= b[|b| - 1];
    if !ValidUtf8(rest[..b[1] - b[0]]) {
      ScanStopsEarly(b, rest);
      return;
    }
    var rest' := rest[b[1] - b[0]..];
    var tail := Scan(Pairs(b[1..]), rest');
    assert Scan(Pairs(b), rest) == Ok([rest[..b[1] - b[0]]] + tail.value) && tail.Ok? by {
      ScanStep(b, rest);
    }
    assert Fits(b[1..], rest') by {
      FitsStep(b, rest);
    }
    ScanPieces(b[1..], rest');
    forall k | 0 <= k < |b| - 1 ensures Scan(Pairs(b), rest).value[k] == Piece(b, rest, k) {
      if k > 0 {
        PieceStep(b, rest, k - 1);
      } else {
        FitsStep(b, rest);
      }
    }
  }

  /** Decode succeeds exactly when the offsets, followed by the byte count,
      never decrease and cut the buffer into valid UTF-8; it then returns one
      string per offset, string `i` running from offset `i` to offset `i + 1`
      (the byte count for the last), both counted from the first offset. */
  lemma DecodeSpec(offsets: seq<usize>, nonNullBytes: usize, buf: seq<byte>)
    requires |buf| == nonNullBytes
    ensures Decode(offsets, nonNullBytes, buf).Ok? <==> Splits(offsets + [nonNullBytes], buf)
    ensures Decode(offsets, nonNullBytes, buf).Ok? ==>
      var strings := Decode(offsets, nonNullBytes, buf).value;
      |strings| == |offsets| &&
      forall i :: 0 <= i < |offsets| ==> strings[i] == Piece(offsets + [nonNullBytes], buf, i)
  {
    WindowsArePairs(offsets, nonNullBytes);
    ScanSucceeds(offsets + [nonNullBytes], buf);
    if Decode(offsets, nonNullBytes, buf).Ok? {
      ScanPieces(offsets + [nonNullBytes], buf);
    }
  }

  /** An offset greater than the next boundary (a decreasing offset, or a last
      offset beyond the byte count) makes the decode panic. */
  lemma DecodePanicsOnBackwardWindow(offsets: seq<usize>, nonNullBytes: usize, buf: seq<byte>, i: nat)
    requires |buf| == nonNullBytes
    requires i < |offsets| && offsets[i] > (offsets + [nonNullBytes])[i + 1]
    ensures Decode(offsets, nonNullBytes, buf).Panic?
  {
    DecodeSpec(offsets, nonNullBytes, buf);
    var b := offsets + [nonNullBytes];
    assert b[i] > b[i + 1];
    assert !NonDecreasing(b);
  }

  // ----- The runtime's side: the packed representation of a list of strings -----

  /** All strings, concatenated in index order. */
  function Concat(strings: seq<seq<byte>>): seq<byte>
    decreases |strings|
  {
    if strings == [] then [] else Concat(strings[..|strings| - 1]) + strings[|strings| - 1]
  }

  /** The concatenation of the first `i` strings is a prefix of the whole. */
  lemma {:induction false} ConcatPrefix(strings: seq<seq<byte>>, i: nat)
    requires i <= |strings|
    ensures |Concat(strings[..i])| <= |Concat(strings)|
    ensures Concat(strings)[..|Concat(strings[..i])|] == Concat(strings[..i])
    decreases |strings|
  {
    if i == |strings| {
      assert strings[..i] == strings;
    } else {
      var init := strings[..|strings| - 1];
      ConcatPrefix(init, i);
      assert init[..i] == strings[..i];
    }
  }

  /** Start offset of every string in the concatenation. */
  function StartOffsets(strings: seq<seq<byte>>): (offsets: seq<nat>)
    ensures |offsets| == |strings|
    ensures forall i :: 0 <= i < |strings| ==> offsets[i] <= |Concat(strings)|
  {
    ConcatPrefixLengths(strings);
    seq(|strings|, i requires 0 <= i < |strings| => |Concat(strings[..i])|)
  }

  lemma ConcatPrefixLengths(strings: seq<seq<byte>>)
    ensures forall i :: 0 <= i <= |strings| ==> |Concat(strings[..i])| <= |Concat(strings)|
  {
    forall i | 0 <= i <= |strings| ensures |Concat(strings[..i])| <= |Concat(strings)| {
      ConcatPrefix(strings, i);
    }
  }

  /** The boundaries of packed strings: every start offset, then the length. */
  function PackedBoundaries(strings: seq<seq<byte>>): (b: seq<nat>)
    ensures |b| == |strings| + 1
  {
    StartOffsets(strings) + [|Concat(strings)|]
  }

  /** Boundary `i` of packed strings is the length of the first `i` strings. */
  lemma PackedBoundaryAt(strings: seq<seq<byte>>, i: nat)
    requires i <= |strings|
    ensures PackedBoundaries(strings)[i] == |Concat(strings[..i])|
  {
    if i == |strings| {
      assert strings[..i] == strings;
    }
  }

  lemma PackedNonDecreasing(strings: seq<seq<byte>>)
    ensures NonDecreasing(PackedBoundaries(strings)) && PackedBoundaries(strings)[0] == 0
  {
    var b := PackedBoundaries(strings);
    forall i, j | 0 <= i <= j < |b| ensures b[i] <= b[j] {
      PackedBoundaryAt(strings, i);
      PackedBoundaryAt(strings, j);
      ConcatPrefix(strings[..j], i);
      assert strings[..j][..i] == strings[..i];
    }
    PackedBoundaryAt(strings, 0);
    assert strings[..0] == [];
  }

  /** String `k` sits in the concatenation right after the first `k` strings. */
  lemma PackedPieceAt(strings: seq<seq<byte>>, k: nat)
    requires k < |strings|
    ensures |Concat(strings[..k])| + |strings[k]| == |Concat(strings[..k + 1])| <= |Concat(strings)|
    ensures Concat(strings)[|Concat(strings[..k])| .. |Concat(strings[..k + 1])|] == strings[k]
  {
    var before, head := Concat(strings[..k]), Concat(strings[..k + 1]);
    assert strings[..k + 1][..k] == strings[..k];
    assert head == before + strings[k];
    ConcatPrefix(strings, k + 1);
    SliceOfPrefix(Concat(strings), before, strings[k]);
  }

  lemma SliceOfPrefix(buf: seq<byte>, before: seq<byte>, x: seq<byte>)
    requires |before + x| <= |buf| && buf[..|before + x|] == before + x
    ensures buf[|before| .. |before| + |x|] == x
  {
    assert buf[|before| .. |before| + |x|] == buf[..|before + x|][|before|..];
  }

  /** The packed boundaries never decrease and cut the concatenation back
      into the original strings. */
  lemma PackedPieces(strings: seq<seq<byte>>)
    ensures var b := PackedBoundaries(strings);
      && Fits(b, Concat(strings)) && b[0] == 0
      && forall k :: 0 <= k < |strings| ==> Piece(b, Concat(strings), k) == strings[k]
  {
    PackedNonDecreasing(strings);
    var b, buf := PackedBoundaries(strings), Concat(strings);
    assert b[|b| - 1] == |buf|;
    assert Fits(b, buf);
    forall k | 0 <= k < |strings| ensures Piece(b, buf, k) == strings[k] {
      PackedPieceAt(strings, k);
      PackedBoundaryAt(strings, k);
      PackedBoundaryAt(strings, k + 1);
      PieceFromZero(b, buf, k);
    }
  }

  /** With a first boundary of 0, piece `k` is simply `rest[b[k] .. b[k + 1]]`. */
  lemma PieceFromZero(b: seq<int>, rest: seq<byte>, k: nat)
    requires Fits(b, rest) && b[0] == 0 && k < |b| - 1
    ensures 0 <= b[k] <= b[k + 1] <= |rest|
    ensures Piece(b, rest, k) == rest[b[k] .. b[k + 1]]
  {
  }

  /** Packing then decoding gives back the strings: the runtime's packed
      form, read by the wrapper, yields the same list in the same order. */
  lemma EncodeDecode(strings: seq<seq<byte>>)
    requires forall k :: 0 <= k < |strings| ==> ValidUtf8(strings[k])
    requires |Concat(strings)| < U64_LIMIT
    ensures Decode(StartOffsets(strings), |Concat(strings)|, Concat(strings)) == Ok(strings)
  {
    var buf, n := Concat(strings), |Concat(strings)|;
    var b := PackedBoundaries(strings);
    PackedPieces(strings);
    assert Splits(b, buf);
    assert StartOffsets(strings) + [n] == b;
    DecodeSpec(StartOffsets(strings), n, buf);
    var decoded := Decode(StartOffsets(strings), n, buf).value;
    assert decoded == strings;
  }

  /** Decoding then packing gives back the buffer and the offsets: with
      0-based offsets, string `i` is exactly `buf[offsets[i] .. end]`, the
      strings concatenate to the whole buffer, and their start offsets are
      the offsets read. */
  lemma DecodeEncode(offsets: seq<usize>, nonNullBytes: usize, buf: seq<byte>)
    requires |buf| == nonNullBytes && |offsets| > 0 && offsets[0] == 0
    requires Decode(offsets, nonNullBytes, buf).Ok?
    ensures var strings, b := Decode(offsets, nonNullBytes, buf).value, offsets + [nonNullBytes];
      && (forall i :: 0 <= i < |offsets| ==>
            offsets[i] <= b[i + 1] <= nonNullBytes && strings[i] == buf[offsets[i] .. b[i + 1]])
      && Concat(strings) == buf
      && StartOffsets(strings) == offsets
  {
    var b := offsets + [nonNullBytes];
    var strings := Decode(offsets, nonNullBytes, buf).value;
    assert Fits(b, buf) && |strings| == |b| - 1 && forall k :: 0 <= k < |b| - 1 ==> strings[k] == Piece(b, buf, k) by {
      DecodeSpec(offsets, nonNullBytes, buf);
    }
    PiecesAreSlices(b, buf, strings);
    assert Concat(strings) == buf by {
      ConcatOfPieces(b, buf, strings, |strings|);
      assert strings[..|strings|] == strings;
    }
    PiecesStartAtBoundaries(b, buf, strings);
    assert StartOffsets(strings) == b[..|offsets|] == offsets;
  }

  /** Piece `i` of 0-based boundaries is the slice between boundaries `i`
      and `i + 1`. */
  lemma PiecesAreSlices(b: seq<usize>, buf: seq<byte>, strings: seq<seq<byte>>)
    requires Fits(b, buf) && b[0] == 0 && |strings| == |b| - 1
    requires forall k :: 0 <= k < |b| - 1 ==> strings[k] == Piece(b, buf, k)
    ensures forall i {:trigger strings[i]} :: 0 <= i < |strings| ==> b[i] <= b[i + 1] <= |buf| && strings[i] == buf[b[i] .. b[i + 1]]
  {
    forall i {:trigger strings[i]} | 0 <= i < |strings| ensures b[i] <= b[i + 1] <= |buf| && strings[i] == buf[b[i] .. b[i + 1]] {
      PieceFromZero(b, buf, i);
    }
  }

  /** The start offsets of the pieces of 0-based boundaries are those
      boundaries. */
  lemma PiecesStartAtBoundaries(b: seq<usize>, buf: seq<byte>, strings: seq<seq<byte>>)
    requires Fits(b, buf) && b[0] == 0 && |strings| == |b| - 1
    requires forall k :: 0 <= k < |b| - 1 ==> strings[k] == Piece(b, buf, k)
    ensures StartOffsets(strings) == b[..|strings|]
  {
    forall i | 0 <= i < |strings| ensures StartOffsets(strings)[i] == b[i] {
      ConcatOfPieces(b, buf, strings, i);
    }
  }

  /** The first `i` pieces of 0-based boundaries concatenate to the bytes
      before boundary `i`. */
  lemma {:induction false} ConcatOfPieces(b: seq<usize>, buf: seq<byte>, strings: seq<seq<byte>>, i: nat)
    requires Fits(b, buf) && b[0] == 0 && |strings| == |b| - 1
    requires forall k :: 0 <= k < |b| - 1 ==> strings[k] == Piece(b, buf, k)
    requires i < |b|
    ensures Concat(strings[..i]) == buf[..b[i]]
    decreases i
  {
    if i > 0 {
      ConcatOfPieces(b, buf, strings, i - 1);
      assert strings[..i][..i - 1] == strings[..i - 1];
      assert buf[..b[i]] == buf[..b[i - 1]] + buf[b[i - 1] .. b[i]];
    }
  }

  /** Example: buffer "abbc" with offsets [0, 1, 3] decodes to
      "a", "bb", "c". */
  lemma DecodeExample()
    ensures Decode([0, 1, 3], 4, [0x61, 0x62, 0x62, 0x63]) == Ok([[0x61], [0x62, 0x62], [0x63]])
  {
    var strings: seq<seq<byte>> := [[0x61], [0x62, 0x62], [0x63]];
    forall k | 0 <= k < |strings| ensures ValidUtf8(strings[k]) {
      AsciiIsValid(strings[k]);
    }
    assert strings[..0] == [] && strings[..1] == [[0x61]] && strings[..2] == [[0x61], [0x62, 0x62]];
    assert Concat(strings[..1]) == [0x61] by {
      assert Concat(strings[..1]) == Concat([]) + [0x61];
    }
    assert Concat(strings[..2]) == [0x61, 0x62, 0x62] by {
      assert strings[..2][..1] == strings[..1];
    }
    assert Concat(strings) == [0x61, 0x62, 0x62, 0x63] by {
      assert strings[..2] == strings[..|strings| - 1];
    }
    assert StartOffsets(strings) == [0, 1, 3];
    EncodeDecode(strings);
  }
}
