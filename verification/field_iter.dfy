/** pb_common.c: the cyclic iterator over a field table, and the check of required fields at the end
    of pb_decode_noinit. */
module FieldIterators {

  datatype HType = Required | Optional | Repeated | OneOf
  datatype AType = Static | Callback | Pointer

  const PB_SIZE_MAX: nat := 0xFFFF_FFFF
  const ADDRESS_SIZE: nat := 8
  const PB_MAX_REQUIRED_FIELDS: nat := 64

  /** pb_field_t. A tag of zero ends the table. */
  datatype FieldInfo = FieldInfo(tag: nat, htype: HType, atype: AType, extension: bool,
                                 dataOffset: nat, sizeOffset: int, dataSize: nat, arraySize: nat)

  ghost predicate Table(fields: seq<FieldInfo>) {
    fields != [] && forall i :: 0 <= i < |fields| ==> (fields[i].tag == 0 <==> i == |fields| - 1)
  }

  /** Fields of one union lie at the same place. */
  predicate SharesUnion(prev: FieldInfo, next: FieldInfo) {
    prev.htype == OneOf && next.htype == OneOf && next.dataOffset == PB_SIZE_MAX
  }

  /** The space a field takes in the structure. */
  function SpaceOf(f: FieldInfo): nat {
    if f.atype == Static && f.htype == Repeated then f.dataSize * f.arraySize
    else if f.atype == Pointer then ADDRESS_SIZE
    else f.dataSize
  }

  // ---------- A fresh walk ----------

  ghost function DataAt(fields: seq<FieldInfo>, dest: int, i: nat): int
    requires i < |fields|
  {
    if i == 0 then dest + fields[0].dataOffset
    else if SharesUnion(fields[i - 1], fields[i]) then DataAt(fields, dest, i - 1)
    else DataAt(fields, dest, i - 1) + SpaceOf(fields[i - 1]) + fields[i].dataOffset
  }

  ghost function SizeAt(fields: seq<FieldInfo>, dest: int, i: nat): int
    requires i < |fields|
  {
    if i > 0 && SharesUnion(fields[i - 1], fields[i]) then SizeAt(fields, dest, i - 1)
    else DataAt(fields, dest, i) + fields[i].sizeOffset
  }

  /** Field j lies behind all that field i has: behind each entry of an array, behind a pointer, behind one value. */
  lemma {:induction false} FieldsApart(fields: seq<FieldInfo>, dest: int, i: nat, j: nat)
    requires i < j < |fields| && forall k :: i <= k < j ==> !SharesUnion(fields[k], fields[k + 1])
    ensures dest <= DataAt(fields, dest, i) <= DataAt(fields, dest, j)
    ensures fields[i].atype == Static && fields[i].htype == Repeated ==>
      forall n :: 0 <= n < fields[i].arraySize ==> DataAt(fields, dest, i) + n * fields[i].dataSize + fields[i].dataSize <= DataAt(fields, dest, j)
    ensures fields[i].atype == Pointer ==> DataAt(fields, dest, i) + ADDRESS_SIZE <= DataAt(fields, dest, j)
    ensures fields[i].atype != Pointer && !(fields[i].atype == Static && fields[i].htype == Repeated) ==>
      DataAt(fields, dest, i) + fields[i].dataSize <= DataAt(fields, dest, j)
  {
    NotBefore(fields, dest, i);
    if j == i + 1 {
      forall n: nat | n < fields[i].arraySize ensures n * fields[i].dataSize + fields[i].dataSize <= fields[i].dataSize * fields[i].arraySize {
        OneOfMany(n, fields[i].arraySize, fields[i].dataSize);
      }
    } else {
      FieldsApart(fields, dest, i, j - 1);
    }
  }

  lemma OneOfMany(n: nat, count: nat, size: nat)
    requires n < count
    ensures n * size + size <= size * count
  {
    assert (n + 1) * size <= count * size;
  }

  lemma {:induction false} NotBefore(fields: seq<FieldInfo>, dest: int, i: nat)
    requires i < |fields|
    ensures dest <= DataAt(fields, dest, i)
  {
    if i > 0 {
      NotBefore(fields, dest, i - 1);
    }
  }

  /** Exactly where the next field lies: at its offset behind the one before, or in the same place in a union. */
  lemma NextField(fields: seq<FieldInfo>, dest: int, i: nat)
    requires i + 1 < |fields|
    ensures DataAt(fields, dest, i + 1) - DataAt(fields, dest, i)
      == if fields[i].htype == OneOf && fields[i + 1].htype == OneOf && fields[i + 1].dataOffset == PB_SIZE_MAX then 0
         else fields[i + 1].dataOffset + (match fields[i].atype
                                          case Static => if fields[i].htype == Repeated then fields[i].arraySize * fields[i].dataSize else fields[i].dataSize
                                          case Callback => fields[i].dataSize
                                          case Pointer => ADDRESS_SIZE)
  {
  }

  /** How many of the first i fields are required. */
  ghost function RequiredBefore(fields: seq<FieldInfo>, i: nat): nat
    requires i <= |fields|
  {
    if i == 0 then 0 else RequiredBefore(fields, i - 1) + if fields[i - 1].htype == Required then 1 else 0
  }

  lemma {:induction false} RequiredMonotone(fields: seq<FieldInfo>, i: nat, j: nat)
    requires i <= j <= |fields|
    ensures RequiredBefore(fields, i) <= RequiredBefore(fields, j)
    ensures i < j && fields[i].htype == Required ==> RequiredBefore(fields, i) < RequiredBefore(fields, j)
  {
    if i < j {
      RequiredMonotone(fields, i, j - 1);
    }
  }

  class FieldIter {
    const fields: seq<FieldInfo>
    const dest: int
    var pos: nat
    var requiredFieldIndex: nat
    var pData: int
    var pSize: int

    /** How many fields the message has. */
    ghost function Count(): nat
      requires fields != []
    {
      |fields| - 1
    }

    /** Everything is as a fresh walk to pos would leave it, whatever was called before. */
    ghost predicate Valid()
      reads this
    {
      && Table(fields) && (pos < |fields| - 1 || pos == |fields| - 1 == 0)
      && pData == DataAt(fields, dest, pos) && pSize == SizeAt(fields, dest, pos)
      && requiredFieldIndex == RequiredBefore(fields, pos)
    }

    constructor Begin(fields: seq<FieldInfo>, dest: int)
      requires Table(fields)
      ensures Valid() && pos == 0 && this.fields == fields && this.dest == dest
    {
      this.fields, this.dest := fields, dest;
      pos, requiredFieldIndex := 0, 0;
      pData := dest + fields[0].dataOffset;
      pSize := dest + fields[0].dataOffset + fields[0].sizeOffset;
    }

    /** On to the next field, or back to the first. */
    method Next() returns (more: bool)
      requires Valid()
      modifies this
      ensures Valid()
      ensures more <==> old(pos) + 1 < Count()
      ensures pos == if more then old(pos) + 1 else 0
    {
      var prev := fields[pos];
      if prev.tag == 0 {
        return false;
      }
      pos := pos + 1;
      if fields[pos].tag == 0 {
        pos, requiredFieldIndex := 0, 0;
        pData := dest + fields[0].dataOffset;
        pSize := pData + fields[0].sizeOffset;
        return false;
      }
      var prevSize := prev.dataSize;
      if prev.htype == OneOf && fields[pos].htype == OneOf && fields[pos].dataOffset == PB_SIZE_MAX {
        return true;
      } else if prev.atype == Static && prev.htype == Repeated {
        prevSize := prevSize * prev.arraySize;
      } else if prev.atype == Pointer {
        prevSize := ADDRESS_SIZE;
      }
      if prev.htype == Required {
        requiredFieldIndex := requiredFieldIndex + 1;
      }
      pData := pData + prevSize + fields[pos].dataOffset;
      pSize := pData + fields[pos].sizeOffset;
      return true;
    }

    /** The iterator may stop at place i when it looks for the tag. The place of the terminator counts
        only in an empty message, where the iterator stands on it. */
    ghost predicate Wanted(i: nat, tag: nat)
      requires fields != []
    {
      (i < Count() || (i == 0 && Count() == 0)) && fields[i].tag == tag && !fields[i].extension
    }

    /** Goes once round from where it stands. It stops at the first wanted field, and if there is none
        it is where it was. */
    method Find(tag: nat) returns (found: bool)
      requires Valid()
      modifies this
      ensures Valid()
      ensures found <==> exists i :: Wanted(i, tag)
      ensures found ==> Wanted(pos, tag)
      ensures !found ==> pos == old(pos)
    {
      var start := pos;
      ghost var wrapped := false;
      while true
        invariant Valid() && (Count() == 0 ==> pos == start == 0 && !wrapped)
        invariant !wrapped ==> start <= pos && forall i :: start <= i < pos ==> !Wanted(i, tag)
        invariant wrapped ==> pos < start && forall i :: (start <= i < Count() || 0 <= i < pos) ==> !Wanted(i, tag)
        decreases if wrapped then start - pos else Count() - pos + start + 1
      {
        if fields[pos].tag == tag && !fields[pos].extension {
          assert Wanted(pos, tag);
          return true;
        }
        var more := Next();
        if !more {
          wrapped := true;
        }
        if pos == start {
          break;
        }
      }
      return false;
    }

    /** The end of pb_decode_noinit: how many required fields there are, from wherever decoding left
        the iterator. */
    method CountRequired() returns (count: nat)
      requires Valid()
      modifies this
      ensures Valid() && count == RequiredBefore(fields, Count())
    {
      count := 0;
      var last := Optional;
      var more := true;
      ghost var seen := pos;
      while more
        invariant Valid()
        invariant more ==> seen == pos
        invariant !more ==> pos == 0 && seen == (if Count() == 0 then 0 else Count() - 1)
        invariant !more ==> last == fields[seen].htype && count == RequiredBefore(fields, seen)
        decreases more, |fields| - pos
      {
        count := requiredFieldIndex;
        last := fields[pos].htype;
        seen := pos;
        more := Next();
        if more {
          seen := pos;
        }
      }
      if last == Required && fields[pos].tag != 0 {
        count := count + 1;
      }
    }
  }

  // ---------- Required fields ----------

  /** The bits that pb_decode_noinit keeps, in words of 32. */
  ghost function Bits(words: seq<seq<bool>>): set<nat> {
    set w, b | 0 <= w < |words| && 0 <= b < |words[w]| && words[w][b] :: 32 * w + b
  }

  ghost predicate Words(words: seq<seq<bool>>) {
    |words| == 2 && |words[0]| == |words[1]| == 32
  }

  lemma BitAt(words: seq<seq<bool>>, i: nat)
    requires Words(words) && i < 64
    ensures i in Bits(words) <==> words[i / 32][i % 32]
  {
  }

  /** fields_seen[index >> 5] |= 1 << (index & 31) */
  method MarkSeen(words: seq<seq<bool>>, index: nat) returns (after: seq<seq<bool>>)
    requires Words(words)
    ensures Words(after)
    ensures forall i :: 0 <= i < 64 ==> (i in Bits(after) <==> i in Bits(words) || (i == index && index < PB_MAX_REQUIRED_FIELDS))
  {
    after := words;
    if index < PB_MAX_REQUIRED_FIELDS {
      var w, b := index / 32, index % 32;
      after := words[w := words[w][b := true]];
    }
    forall i | 0 <= i < 64 ensures i in Bits(after) <==> i in Bits(words) || (i == index && index < PB_MAX_REQUIRED_FIELDS) {
      BitAt(words, i);
      BitAt(after, i);
    }
  }

  /** A word equal to all bits shifted right by 32 - k: the lowest k are set and no other. */
  predicate LowestSet(word: seq<bool>, k: nat) {
    forall b :: 0 <= b < |word| ==> (word[b] <==> b < k)
  }

  /** Whole words first, then the remaining bits of the next one. It passes exactly when each of the
      first 64 required fields was seen. */
  method AllRequiredSeen(words: seq<seq<bool>>, count: nat) returns (ok: bool)
    requires Words(words) && (count == 0 || forall i :: i in Bits(words) ==> i < count)
    ensures ok <==> forall i :: 0 <= i < count && i < PB_MAX_REQUIRED_FIELDS ==> i in Bits(words)
  {
    var n := if count > PB_MAX_REQUIRED_FIELDS then PB_MAX_REQUIRED_FIELDS else count;
    ok := true;
    var w := 0;
    while w < n / 32
      invariant 0 <= w <= n / 32
      invariant forall i :: 0 <= i < 32 * w ==> i in Bits(words)
    {
      if !LowestSet(words[w], 32) {
        ghost var b :| 0 <= b < 32 && !words[w][b];
        BitAt(words, 32 * w + b);
        assert 32 * w + b < n && 32 * w + b !in Bits(words);
        return false;
      }
      forall i | 32 * w <= i < 32 * (w + 1) ensures i in Bits(words) {
        BitAt(words, i);
      }
      w := w + 1;
    }
    if n % 32 != 0 {
      ok := LowestSet(words[n / 32], n % 32);
      LastWord(words, count, n);
    }
  }

  lemma LastWord(words: seq<seq<bool>>, count: nat, n: nat)
    requires Words(words) && (forall i :: i in Bits(words) ==> i < count)
    requires n == (if count > 64 then 64 else count) && n % 32 != 0
    ensures LowestSet(words[n / 32], n % 32) <==> forall i :: 32 * (n / 32) <= i < n ==> i in Bits(words)
  {
    var w := n / 32;
    forall b | 0 <= b < 32 ensures words[w][b] <==> 32 * w + b in Bits(words) {
      BitAt(words, 32 * w + b);
    }
    if forall i :: 32 * w <= i < n ==> i in Bits(words) {
      forall b | 0 <= b < 32 ensures words[w][b] <==> b < n % 32 {
        assert words[w][b] <==> 32 * w + b in Bits(words);
      }
    }
    if LowestSet(words[w], n % 32) {
      forall i | 32 * w <= i < n ensures i in Bits(words) {
        assert words[w][i - 32 * w];
      }
    }
  }
}
