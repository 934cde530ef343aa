/** FileStorage (sources/misc/prefixtree/storages/filestorage.cpp): byte sequences of any length kept in
    linked fixed-size blocks of one file, with a chain of free blocks.  The stream's bytes are the field
    `file`; a seek followed by a read or write is an access at that position. */
module FileStores {
  import opened Bytes
  import opened Disk
  import opened Layouts
  import opened Positions
  import opened DiskOps

  datatype FileHeader = FileHeader(firstBlockAddr: nat, deletedSeqAddr: nat)

  /** The bytes of a freshly formatted file. */
  ghost function FormatFile(B: nat): ByteSeq {
    Poke(HeaderBytes(HEADER, 0), HEADER, Zeros(B))
  }

  ghost function FormatLayout(): Layout {
    Layout(map[0 := [], HEADER := [HEADER]], map[HEADER := Place(HEADER, 0)], 1)
  }

  lemma FormatOk(B: nat)
    requires FIRST < B && HEADER + B <= ADDR_LIMIT
    ensures DiskOk(FormatFile(B), B, FormatLayout())
    ensures View(FormatFile(B), B, FormatLayout()) == map[HEADER := EmptySeq(B)]
  {
    hide LiveOk, Held, Word;
    var f, L := FormatFile(B), FormatLayout();
    FormatBytes(B);
    ZeroBlock(f, B, HEADER);
    assert Grid(B, 1) == Grid(B, 0) + {HEADER};
    forall h, i | h in L.chains && 0 <= i < |L.chains[h]| ensures PlacedAt(L, h, i) {}
    forall a | a in L.place ensures FoundAt(L, a) {}
  }

  lemma FormatBytes(B: nat)
    ensures var f := FormatFile(B);
            |f| == HEADER + B && f[HEADER..HEADER + B] == Zeros(B) && Word(f, 0) == HEADER && Word(f, PTR) == 0
  {
    var h := HeaderBytes(HEADER, 0);
    HeaderWrite(h, 0);
    assert Poke(h, 0, h) == h;
    PokeFrame(h, HEADER, Zeros(B), 0, HEADER);
    HeaderWordsKept(h, FormatFile(B));
    PokeHit(h, HEADER, Zeros(B));
  }

  /** Allocation of a block: from the free chain if it has any, else at the end of the file. */
  ghost function AllocFile(f: ByteSeq, B: nat, L: Layout): ByteSeq
    requires DiskOk(f, B, L)
  {
    if Free(L) == [] then Poke(f, |f|, Zeros(B)) else FreeHead(f, B, L); PopFile(f, B)
  }

  ghost function AllocLayout(f: ByteSeq, L: Layout): Layout {
    if Free(L) == [] then Grown(L, |f|) else Popped(L)
  }

  lemma AllocDisk(f: ByteSeq, B: nat, L: Layout)
    requires DiskOk(f, B, L) && (Free(L) == [] ==> |f| + B <= ADDR_LIMIT)
    ensures |f| >= HEADER && Word(f, PTR) + PTR <= |f| && (Word(f, PTR) == 0 <==> Free(L) == [])
    ensures Word(f, 0) == HEADER
    ensures var a, f', M := if Free(L) == [] then |f| else Word(f, PTR), AllocFile(f, B, L), AllocLayout(f, L);
            && DiskOk(f', B, M) && a != 0 && a !in L.chains && IsNewSequence(L, M, a) && a + B <= |f'|
            && View(f', B, M) == View(f, B, L)[a := EmptySeq(B)]
            && |f'| == |f| + (if Free(L) == [] then B else 0)
            && Word(f', PTR) == if Free(L) == [] then 0 else Word(f, a)
    ensures Free(L) != [] ==>
              var a := Word(f, PTR);
              AllocFile(f, B, L) == Poke(Poke(Poke(f, a, ToLE(0, PTR)), 0, HeaderBytes(HEADER, Word(f, a))), a,
                  Zeros(B))
  {
    hide LiveOk, Held, Linked, KeepsBlocks, Shape, View, ToLE, HeaderBytes;
    if Free(L) == [] {
      GrowDisk(f, B, L);
    } else {
      FreeHead(f, B, L);
      PopDisk(f, B, L);
      if |L.chains[0]| > 1 { assert Popped(L).chains[0][0] == L.chains[0][1]; }
    }
  }

  /** Allocation takes the first free block, if there is one. */
  lemma AllocFree(f: ByteSeq, B: nat, L: Layout)
    requires DiskOk(f, B, L)
    ensures Word(f, PTR) == if Free(L) == [] then 0 else Free(L)[0]
    ensures Free(AllocLayout(f, L)) == if Free(L) == [] then [] else Free(L)[1..]
  {
    hide LiveOk, Linked, Shape, Word;
    if Free(L) != [] {
      FreeHead(f, B, L);
      PopDisk(f, B, L);
    }
  }

  /** What holds of block `i` of live sequence `h`. */
  lemma BlockFacts(f: ByteSeq, B: nat, L: Layout, h: nat, i: nat)
    requires DiskOk(f, B, L) && h in L.chains && h != 0 && i < |L.chains[h]|
    ensures B > FIRST && h in View(f, B, L) && L.chains[h][0] == h
    ensures HEADER <= L.chains[h][i] && L.chains[h][i] + B <= |f|
    ensures Word(f, L.chains[h][i]) == NextIn(L.chains[h], i)
    ensures i + 1 < |L.chains[h]| ==> HEADER <= L.chains[h][i + 1]
    ensures |View(f, B, L)[h].room| == Pos(B, |L.chains[h]|, PTR)
    ensures Pos(B, i, B) <= |View(f, B, L)[h].room|
    ensures i + 1 == |L.chains[h]| ==> Pos(B, i, B) == |View(f, B, L)[h].room|
  {
    hide Word, Pos, Rest;
    BlockAddress(f, B, L, h, i);
    if i + 1 < |L.chains[h]| { BlockAddress(f, B, L, h, i + 1); }
    assert LiveOk(f, B, L.chains[h]);
    LinkedInFile(f, B, L.chains[h]);
    RawLength(f, B, L.chains[h]);
    PosInRoom(f, B, L.chains[h], i);
  }

  lemma SequenceFacts(f: ByteSeq, B: nat, L: Layout, h: nat)
    requires DiskOk(f, B, L) && h in View(f, B, L)
    ensures h in L.chains && h != 0 && |L.chains[h]| > 0 && L.chains[h][0] == h
    ensures 0 in L.chains && LiveOk(f, B, L.chains[h]) && View(f, B, L)[h].Fits()
  {
    hide LiveOk, Linked, Word;
  }

  /** `n` blocks are exactly as many as a sequence of `size` bytes needs. */
  ghost predicate FewestBlocks(B: nat, n: nat, size: nat)
    requires B > FIRST
  {
    0 < n && size <= Pos(B, n, PTR) && (n > 1 ==> Pos(B, n - 1, PTR) < size)
  }

  lemma PosOrder(B: nat, m: nat, n: nat)
    requires B > FIRST && 0 < n
    ensures m < n ==> Pos(B, m, PTR) <= Pos(B, n - 1, PTR)
  {
    if m < n {
      var d, w := n - 1 - m, B - PTR;
      assert d * w >= 0 && (m + d) * w == m * w + d * w;
    }
  }

  /** There is only one such number. */
  lemma FewestUnique(B: nat, m: nat, n: nat, size: nat)
    requires B > FIRST && FewestBlocks(B, m, size) && FewestBlocks(B, n, size)
    ensures m == n
  {
    hide Pos;
    PosOrder(B, m, n);
    PosOrder(B, n, m);
  }

  class FileStorage {
    const blockSize: nat
    var file: ByteSeq
    var header: FileHeader
    ghost var L: Layout

    ghost predicate Valid()
      reads this
    {
      && DiskOk(file, blockSize, L)
      && header == FileHeader(HEADER, Word(file, PTR))
    }

    /** The live sequences, with their room and size. */
    ghost function Seqs(): map<nat, Stored>
      reads this
    {
      View(file, blockSize, L)
    }

    /** init() on a path where no file exists. */
    constructor Create(blockSize: nat)
      requires FIRST < blockSize && HEADER + blockSize <= ADDR_LIMIT
      ensures Valid() && this.blockSize == blockSize
      ensures Seqs() == map[HEADER := EmptySeq(blockSize)]
      ensures |file| == HEADER + blockSize
    {
      this.blockSize := blockSize;
      file := HeaderBytes(HEADER, 0);
      L := FormatLayout();
      new;
      InitBlock(HEADER);
      FormatOk(blockSize);
      ReadHeader();
    }

    /** init() on an existing file. */
    constructor Open(blockSize: nat, bytes: ByteSeq, ghost layout: Layout)
      requires DiskOk(bytes, blockSize, layout)
      ensures Valid() && this.blockSize == blockSize && file == bytes && L == layout
      ensures Seqs() == View(bytes, blockSize, layout)
    {
      this.blockSize := blockSize;
      file := bytes;
      L := layout;
      new;
      ReadHeader();
    }

    method ReadHeader()
      requires |file| >= HEADER
      modifies this`header
      ensures header == FileHeader(Word(file, 0), Word(file, PTR))
    {
      header := FileHeader(FromLE(file[0..PTR]), FromLE(file[PTR..PTR + PTR]));
    }

    method GetFirstBlockSeqAddress() returns (a: nat)
      requires Valid()
      ensures a == HEADER
    {
      a := header.firstBlockAddr;
    }

    method InitBlock(address: nat)
      requires address <= |file|
      modifies this`file
      ensures file == Poke(old(file), address, Zeros(blockSize))
    {
      file := Poke(file, address, Zeros(blockSize));
    }

    /** The address stored in a block.  For a block of a chain that is the next block's, or 0 at the chain's end. */
    method ReadNextBlockAddress(blockAddr: nat) returns (next: nat)
      requires blockAddr + PTR <= |file|
      ensures next == if blockAddr == 0 then 0 else Word(file, blockAddr)
      ensures Valid() ==> forall h, i: nat :: On(L, blockAddr, h, i) ==> next == NextIn(L.chains[h], i)
    {
      hide DiskOk;
      if Valid() {
        forall h, i: nat | On(L, blockAddr, h, i) ensures blockAddr != 0
            && Word(file, blockAddr) == NextIn(L.chains[h], i) {
          LinkAt(file, blockSize, L, h, i);
          BlockAddress(file, blockSize, L, h, i);
        }
      }
      if blockAddr == 0 {
        return 0;
      }
      next := FromLE(file[blockAddr..blockAddr + PTR]);
    }

    method LinkBlocks(parentBlock: nat, childBlock: nat)
      requires parentBlock <= |file|
      modifies this`file
      ensures file == Poke(old(file), parentBlock, ToLE(childBlock, PTR))
    {
      file := Poke(file, parentBlock, ToLE(childBlock, PTR));
    }

    method WriteHeader()
      requires |file| >= HEADER
      modifies this`file
      ensures file == Poke(old(file), 0, HeaderBytes(header.firstBlockAddr, header.deletedSeqAddr))
    {
      file := Poke(file, 0, HeaderBytes(header.firstBlockAddr, header.deletedSeqAddr));
    }

    method GetChainSize(seqAddress: nat) returns (size: nat)
      requires Valid() && seqAddress in Seqs()
      ensures size == Seqs()[seqAddress].size
    {
      BlockAddress(file, blockSize, L, seqAddress, 0);
      size := FromLE(file[seqAddress + PTR..seqAddress + PTR + PTR]);
    }

    /** The head of the free chain, unlinked from it, or else the end of the file. */
    method GetAddrForANewBlock() returns (ret: nat)
      requires |file| >= HEADER && header.deletedSeqAddr + PTR <= |file|
      modifies this`file, this`header
      ensures old(header.deletedSeqAddr) == 0 ==> ret == |file| && file == old(file) && header == old(header)
      ensures old(header.deletedSeqAddr) != 0 ==>
                && ret == old(header.deletedSeqAddr)
                && header == old(header).(deletedSeqAddr := Word(old(file), ret))
                && |file| == |old(file)|
                && file == Poke(Poke(old(file), ret, ToLE(0, PTR)), 0,
                    HeaderBytes(header.firstBlockAddr, header.deletedSeqAddr))
      ensures old(Valid()) ==>
                if Free(L) == [] then ret == |old(file)| && header.deletedSeqAddr == 0
                else ret == Free(L)[0] && header.deletedSeqAddr == NextIn(Free(L), 0)
    {
      hide DiskOk, Word;
      if Valid() { FreeFacts(file, blockSize, L, 0); }
      ret := |file|;
      if header.deletedSeqAddr != 0 {
        ret := header.deletedSeqAddr;
        var newDeletedBlocksHeading := ReadNextBlockAddress(ret);
        LinkBlocks(header.deletedSeqAddr, 0);
        header := header.(deletedSeqAddr := newDeletedBlocksHeading);
        WriteHeader();
      }
    }

    /** A new empty sequence, in the first free block; the file grows only when there is none. */
    method NewBlockSeq() returns (a: nat)
      requires Valid()
      requires Free(L) == [] ==> |file| + blockSize <= ADDR_LIMIT
      modifies this
      ensures Valid() && IsNewSequence(old(L), L, a)
      ensures Seqs() == old(Seqs())[a := EmptySeq(blockSize)]
      ensures a == if Free(old(L)) == [] then |old(file)| else Free(old(L))[0]
      ensures Free(L) == if Free(old(L)) == [] then [] else Free(old(L))[1..]
      ensures |file| == |old(file)| + if Free(old(L)) == [] then blockSize else 0
    {
      hide DiskOk, View, PopFile, Grown, Popped, Word, ToLE, HeaderBytes, IsNewSequence;
      ghost var f := file;
      AllocFree(f, blockSize, L);
      AllocDisk(f, blockSize, L);
      a := GetAddrForANewBlock();
      InitBlock(a);
      L := AllocLayout(f, L);
      assert file == AllocFile(f, blockSize, old(L));
    }
  
    /** The block after block number `i` of sequence `h`, added to the sequence if there is none. */
    method GetOrCreateNextBlock(parentBlock: nat, readOnly: bool, ghost h: nat, ghost i: nat) returns (next: nat)
      requires Valid() && h in Seqs() && i < |ChainOf(L, h)| && ChainOf(L, h)[i] == parentBlock
      requires i + 1 == |ChainOf(L, h)| && !readOnly && Free(L) == [] ==> |file| + blockSize <= ADDR_LIMIT
      modifies this
      ensures Valid() && h in Seqs()
      ensures i + 1 < |ChainOf(old(L), h)| || readOnly ==>
                next == NextIn(ChainOf(L, h), i) && file == old(file) && L == old(L) && header == old(header)
      ensures i + 1 == |ChainOf(old(L), h)| && !readOnly ==>
                && ChainOf(L, h) == ChainOf(old(L), h) + [next] && Lengthened(old(Seqs()), Seqs(), h)
                && TookFor(old(L), |old(file)|, L, |file|, blockSize, h)
      ensures |old(file)| <= |file| <= |old(file)| + blockSize
    {
      hide DiskOk, View, Word, IsNewSequence, Pos;
      SequenceFacts(file, blockSize, L, h);
      BlockFacts(file, blockSize, L, h, i);
      var currentNextBlockAddress := ReadNextBlockAddress(parentBlock);
      if currentNextBlockAddress == 0 {
        if readOnly {
          return 0;
        }
        ghost var f0, L0 := file, L;
        currentNextBlockAddress := NewBlockSeq();
        ghost var f1, L1 := file, L;
        TookOne(Free(L0), |f0|, Free(L1), |f1|, blockSize);
        NextBlockReady(f0, L0, f1, L1, blockSize, h, currentNextBlockAddress);
        AttachDisk(f1, blockSize, L1, h, currentNextBlockAddress);
        LinkBlocks(parentBlock, currentNextBlockAddress);
        L := Attached(L1, h, currentNextBlockAddress);
        NextBlockAttached(f0, L0, f1, L1, file, blockSize, h, currentNextBlockAddress);
        AttachKeepsHeader(f1, file, blockSize, L1, h, currentNextBlockAddress);
        assert TookFor(L0, |f0|, L, |file|, blockSize, h);
      }
      next := currentNextBlockAddress;
    }

    /** The workFunc of write: puts bytes into one block. */
    method WriteInBlock(blockAddress: nat, blockOffset: nat, chunk: ByteSeq, ghost h: nat, ghost i: nat)
      requires Valid() && h in Seqs() && i < |ChainOf(L, h)| && ChainOf(L, h)[i] == blockAddress
      requires InPayload(blockSize, i, blockOffset) && blockOffset + |chunk| <= blockSize
      modifies this`file
      ensures Valid() && h in Seqs() && |file| == |old(file)|
      ensures Scrolled(old(Seqs()), Seqs(), blockSize, h, i, blockOffset, chunk)
    {
      hide DiskOk, View, Word, Pos, Poke, Scrolled;
      SequenceFacts(file, blockSize, L, h);
      BlockFacts(file, blockSize, L, h, i);
      PayloadWrite(file, blockSize, L, h, i, blockOffset, chunk);
      WriteKeepsHeader(file, blockSize, L, h, i, blockOffset, chunk);
      file := Poke(file, blockAddress + blockOffset, chunk);
      ScrollDone(old(Seqs()), Seqs(), blockSize, h, i, blockOffset, chunk);
    }

    /** scrollChain with a writing workFunc: puts `data[pos..]` at `offset` of block number `i` of sequence `h`
        and goes on in the following blocks, adding blocks at the end of the sequence when it has to. */
    method ScrollWrite(blockAddress: nat, blockOffset: nat, data: ByteSeq, pos: nat, ghost h: nat, ghost i: nat)
      returns (finalBlock: nat, finalOffset: nat, ghost fi: nat)
      requires Valid() && h in Seqs() && i < |ChainOf(L, h)| && ChainOf(L, h)[i] == blockAddress
      requires InPayload(blockSize, i, blockOffset) && pos <= |data| && |data| + blockSize <= UINT_LIMIT
      requires |file| + Growth(blockSize, blockOffset, |data| - pos) <= ADDR_LIMIT
      modifies this
      ensures Valid()
      ensures Scrolled(old(Seqs()), Seqs(), blockSize, h, i, blockOffset, data[pos..])
      ensures ScrollEnd(blockSize, |ChainOf(old(L), h)|, ChainOf(L, h), i, blockOffset, |data| - pos, finalBlock, fi,
          finalOffset)
      ensures TookFor(old(L), |old(file)|, L, |file|, blockSize, h)
      ensures |old(file)| <= |file| <= |old(file)| + Growth(blockSize, blockOffset, |data| - pos)
      decreases |data| - pos, if blockOffset == blockSize then 1 else 0
    {
      hide DiskOk, View, Word, Pos, Poke, Scrolled, Lengthened, U32, Growth, TookFor, ScrollEnd;
      SequenceFacts(file, blockSize, L, h);
      BlockFacts(file, blockSize, L, h, i);
      PosFacts(blockSize, i, blockOffset);
      U32Small(blockSize - blockOffset);
      var writeSize := U32(blockSize - blockOffset);
      if pos + writeSize > |data| {
        writeSize := |data| - pos;
      }
      PosAdd(blockSize, i, blockOffset, writeSize);
      ghost var chunk := data[pos..pos + writeSize];
      WriteInBlock(blockAddress, blockOffset, data[pos..pos + writeSize], h, i);
      var newPos := pos + writeSize;
      GrowthStep(blockSize, blockOffset, |data| - pos, writeSize);
      if newPos < |data| {
        ghost var seqs1 := Seqs();
        TookNone(L, |file|, blockSize, h);
        var next := GetOrCreateNextBlock(blockAddress, false, h, i);
        ghost var seqs2, L2, size2 := Seqs(), L, |file|;
        finalBlock, finalOffset, fi := ScrollWrite(next, PTR, data, newPos, h, i + 1);
        assert data[pos..] == chunk + data[newPos..];
        EndFurther(blockSize, |ChainOf(old(L), h)|, |ChainOf(L2, h)|, ChainOf(L, h), i, blockOffset, |data| - pos,
          finalBlock, fi, finalOffset);
        TookMore(old(L), |old(file)|, L2, size2, L, |file|, blockSize, h);
        ScrollCompose(old(Seqs()), seqs1, seqs2, Seqs(), blockSize, h, i, blockOffset, chunk, data[newPos..]);
      } else {
        TookNone(L, |file|, blockSize, h);
        assert data[pos..] == chunk;
        EndHere(blockSize, ChainOf(L, h), i, blockOffset, writeSize);
        finalBlock, finalOffset, fi := blockAddress, blockOffset + writeSize, i;
      }
    }

    /** _seekChain: walks `seekSize` bytes into sequence `h`, `seekPosition` of which are done at `currentOffset` of
        block `i`.  Past the end of the sequence it allocates blocks that it does not link to the sequence. */
    method SeekFrom(currentBlock: nat, seekSize: nat, seekPosition: nat, currentOffset: nat, readOnly: bool,
                    ghost h: nat, ghost i: nat)
      returns (block: nat, offset: nat, ghost j: nat)
      requires Valid() && h in Seqs() && i < |ChainOf(L, h)| && ChainOf(L, h)[i] == currentBlock
      requires PTR <= currentOffset < blockSize && seekPosition <= seekSize && seekSize + blockSize <= UINT_LIMIT
      requires Beyond(blockSize, Seqs()[h], i, currentOffset, seekSize - seekPosition) && !readOnly ==>
                 |file| + Growth(blockSize, currentOffset, seekSize - seekPosition) <= ADDR_LIMIT
      modifies this
      ensures Valid()
      ensures !Beyond(blockSize, old(Seqs())[h], i, currentOffset, seekSize - seekPosition) || readOnly ==>
                file == old(file) && L == old(L) && header == old(header)
      ensures !Beyond(blockSize, old(Seqs())[h], i, currentOffset, seekSize - seekPosition) ==>
                SeekEnd(blockSize, ChainOf(L, h), i, currentOffset, seekSize - seekPosition, block, j, offset)
      ensures Beyond(blockSize, old(Seqs())[h], i, currentOffset, seekSize - seekPosition) ==>
                if readOnly then LastPlace(blockSize, ChainOf(L, h), block, offset)
                    else Strayed(old(Seqs()), Seqs(), block)
      ensures |old(file)| <= |file|
      ensures Beyond(blockSize, old(Seqs())[h], i, currentOffset, seekSize - seekPosition) && !readOnly ==>
                Free(old(L)) == [] ==> |old(file)| + blockSize <= |file|
      decreases seekSize - seekPosition
    {
      hide DiskOk, View, Word, Pos, U32;
      SequenceFacts(file, blockSize, L, h);
      BlockFacts(file, blockSize, L, h, i);
      j := i;
      var amountInTheCurrentBlock := blockSize - currentOffset;
      PosAdd(blockSize, i, currentOffset, amountInTheCurrentBlock);
      U32Small(seekPosition + amountInTheCurrentBlock);
      if U32(seekPosition + amountInTheCurrentBlock) >= seekSize {
        amountInTheCurrentBlock := seekSize - seekPosition;
        PosAdd(blockSize, i, currentOffset, amountInTheCurrentBlock);
        return currentBlock, currentOffset + amountInTheCurrentBlock, i;
      } else {
        PosStep(blockSize, i, PTR);
        PosFacts(blockSize, i, blockSize);
        var nextBlockAddress := ReadNextBlockAddress(currentBlock);
        if nextBlockAddress == 0 {
          if readOnly {
            return currentBlock, blockSize - 1, i;
          }
          nextBlockAddress := NewBlockSeq();
          assert ChainOf(L, nextBlockAddress) == [nextBlockAddress] && nextBlockAddress !in old(Seqs()) by {
            NewIsUnknown(old(file), blockSize, old(L), L, nextBlockAddress);
          }
          block, offset, j := SeekFrom(nextBlockAddress, seekSize, seekPosition + amountInTheCurrentBlock, PTR,
              readOnly, nextBlockAddress, 0);
        } else {
          block, offset, j := SeekFrom(nextBlockAddress, seekSize, seekPosition + amountInTheCurrentBlock, PTR,
              readOnly, h, i + 1);
        }
      }
    }

    /** seekChain: the block and offset of byte number `seekSize` of sequence `h`.  It stays in the sequence,
        and leaves the file alone, exactly when the sequence has that much room. */
    method SeekChain(initialBlock: nat, seekSize: nat, readOnly: bool) returns (block: nat, offset: nat, ghost j: nat)
      requires Valid() && initialBlock in Seqs() && seekSize + blockSize <= UINT_LIMIT
      requires seekSize > |Seqs()[initialBlock].room| && !readOnly
          ==> |file| + Growth(blockSize, FIRST, seekSize) <= ADDR_LIMIT
      modifies this
      ensures Valid()
      ensures seekSize <= |old(Seqs())[initialBlock].room| || readOnly ==>
                file == old(file) && L == old(L) && header == old(header)
      ensures seekSize <= |old(Seqs())[initialBlock].room| ==>
                SeekEnd(blockSize, ChainOf(L, initialBlock), 0, FIRST, seekSize, block, j, offset)
      ensures seekSize > |old(Seqs())[initialBlock].room| ==>
                if readOnly then LastPlace(blockSize, ChainOf(L, initialBlock), block, offset)
                    else Strayed(old(Seqs()), Seqs(), block)
      ensures |old(file)| <= |file|
      ensures seekSize > |old(Seqs())[initialBlock].room| && !readOnly && Free(old(L)) == [] ==>
                |old(file)| + blockSize <= |file|
    {
      hide DiskOk, View, Word, Pos;
      SequenceFacts(file, blockSize, L, initialBlock);
      BlockFacts(file, blockSize, L, initialBlock, 0);
      PosStep(blockSize, 0, FIRST);
      block, offset, j := SeekFrom(initialBlock, seekSize, 0, FIRST, readOnly, initialBlock, 0);
    }

    /** scrollChain with a reading workFunc.  The flag `readOnly` is lost on the recursive call, as in the source:
        that nothing is allocated rests on the bytes asked for being there. */
    method ScrollRead(blockAddress: nat, blockOffset: nat, total: nat, pos: nat, readOnly: bool, ghost h: nat,
        ghost i: nat)
      returns (buffer: ByteSeq)
      requires Valid() && h in Seqs() && i < |ChainOf(L, h)| && ChainOf(L, h)[i] == blockAddress
      requires InPayload(blockSize, i, blockOffset) && pos <= total && total + blockSize <= UINT_LIMIT
      requires !Beyond(blockSize, Seqs()[h], i, blockOffset, total - pos)
      modifies this
      ensures file == old(file) && L == old(L) && header == old(header)
      ensures buffer == Piece(Seqs()[h].room, Pos(blockSize, i, blockOffset), total - pos)
      decreases total - pos, if blockOffset == blockSize then 1 else 0
    {
      hide DiskOk, View, Word, Pos, Piece, U32;
      SequenceFacts(file, blockSize, L, h);
      BlockFacts(file, blockSize, L, h, i);
      PosFacts(blockSize, i, blockOffset);
      U32Small(blockSize - blockOffset);
      var readSize := U32(blockSize - blockOffset);
      if pos + readSize > total {
        readSize := total - pos;
      }
      PosAdd(blockSize, i, blockOffset, readSize);
      ReadInBlock(file, blockSize, L, h, i, blockOffset, readSize);
      buffer := file[blockAddress + blockOffset..blockAddress + blockOffset + readSize];
      var newPos := pos + readSize;
      if newPos < total {
        var next := GetOrCreateNextBlock(blockAddress, readOnly, h, i);
        if readOnly && next == 0 {
          assert false;
        }
        var more := ScrollRead(next, PTR, total, newPos, false, h, i + 1);
        PieceJoin(Seqs()[h].room, Pos(blockSize, i, blockOffset), readSize, total - newPos);
        buffer := buffer + more;
      }
    }

    /** Reads up to `bufferSize` bytes of a sequence from an offset on, clamped to its total size. */
    method Read(seqAddress: nat, offsetFromSeqBegining: nat, bufferSize: nat) returns (buffer: ByteSeq)
      requires Valid() && seqAddress in Seqs() && Seqs()[seqAddress].size + blockSize <= UINT_LIMIT
      modifies this
      ensures file == old(file) && L == old(L) && header == old(header)
      ensures Valid() && Seqs() == old(Seqs())
      ensures buffer == Clamped(Seqs()[seqAddress].Data(), offsetFromSeqBegining, bufferSize)
    {
      hide DiskOk, View, Word, Pos, U32, Strayed, LastPlace;
      SequenceFacts(file, blockSize, L, seqAddress);
      BlockFacts(file, blockSize, L, seqAddress, 0);
      var size := GetChainSize(seqAddress);
      U32Small(size);
      var totalChainDataSize := U32(size);
      if offsetFromSeqBegining > totalChainDataSize {
        return [];
      }
      var count := bufferSize;
      if bufferSize + offsetFromSeqBegining > totalChainDataSize {
        count := totalChainDataSize - offsetFromSeqBegining;
      }
      PosStep(blockSize, 0, FIRST);
      var currentBlockAddress, readBeginAddress, j := SeekChain(seqAddress, offsetFromSeqBegining, false);
      buffer := ScrollRead(currentBlockAddress, readBeginAddress, count, 0, true, seqAddress, j);
      PieceClamped(Seqs()[seqAddress], offsetFromSeqBegining, bufferSize, count);
    }

    /** Writes `buffer` into a sequence; with `allowSpaceRelease` the sequence ends behind it, and the blocks
        that are no longer needed go to the free chain. */
    method Write(seqAddress: nat, offsetFromSeqBegining: nat, buffer: ByteSeq, allowSpaceRelease: bool)
      requires Valid() && seqAddress in Seqs() && offsetFromSeqBegining <= |Seqs()[seqAddress].room|
      requires offsetFromSeqBegining + |buffer| + blockSize <= UINT_LIMIT
      requires |file| + Growth(blockSize, FIRST, |buffer|) <= ADDR_LIMIT
      modifies this
      ensures Valid() && seqAddress in Seqs() && Seqs()[seqAddress].Fits()
      ensures Seqs() == old(Seqs())[seqAddress := Seqs()[seqAddress]]
      ensures Seqs()[seqAddress].Data() == Written(old(Seqs())[seqAddress], offsetFromSeqBegining, buffer,
          allowSpaceRelease)
      ensures allowSpaceRelease ==> FewestBlocks(blockSize, |ChainOf(L, seqAddress)|, offsetFromSeqBegining + |buffer|)
      ensures SpaceMoved(old(L), |old(file)|, L, |file|, blockSize, seqAddress, allowSpaceRelease)
      ensures |old(file)| <= |file| <= |old(file)| + Growth(blockSize, FIRST, |buffer|)
    {
      hide DiskOk, View, Word, Pos, Poke, Scrolled, Written, FewestBlocks, Growth, TookFor, SpaceMoved;
      SequenceFacts(file, blockSize, L, seqAddress);
      BlockFacts(file, blockSize, L, seqAddress, 0);
      PosStep(blockSize, 0, FIRST);
      var currentBlock, writeBegin, j := SeekChain(seqAddress, offsetFromSeqBegining, false);
      GrowthOrder(blockSize, writeBegin, |buffer|);
      var finalBlock, finalPosition, fi := ScrollWrite(currentBlock, writeBegin, buffer, 0, seqAddress, j);
      assert buffer[0..] == buffer;
      ghost var scrolled, L1 := Seqs(), L;
      ScrolledFacts(old(Seqs()), scrolled, blockSize, seqAddress, j, writeBegin, buffer);
      SequenceFacts(file, blockSize, L, seqAddress);
      BlockFacts(file, blockSize, L, seqAddress, fi);
      EndFacts(blockSize, fi, finalPosition);
      EndFacts(blockSize, j, writeBegin);
      FewestHere(blockSize, fi, offsetFromSeqBegining + |buffer|);
      FinishWrite(seqAddress, offsetFromSeqBegining + |buffer|, finalBlock, fi, allowSpaceRelease);
      if allowSpaceRelease {
        SpaceReleased(old(L), |old(file)|, L1, |file|, L, blockSize, seqAddress, fi);
      } else {
        SpaceTaken(old(L), |old(file)|, L, |file|, blockSize, seqAddress);
      }
      WrittenRoom(old(Seqs()), scrolled, Seqs()[seqAddress], blockSize, seqAddress, j, writeBegin, buffer,
          allowSpaceRelease);
    }

    /** The part of write that follows the scroll, which ended in block `fi`. */
    method FinishWrite(seqAddress: nat, newSize: nat, finalBlock: nat, ghost fi: nat, allowSpaceRelease: bool)
      requires Valid() && seqAddress in Seqs() && newSize <= |Seqs()[seqAddress].room| && newSize < ADDR_LIMIT
      requires fi < |ChainOf(L, seqAddress)| && ChainOf(L, seqAddress)[fi] == finalBlock
          && newSize <= Pos(blockSize, fi + 1, PTR)
      modifies this
      ensures Valid() && seqAddress in Seqs() && Seqs()[seqAddress].Fits() && |file| == |old(file)|
      ensures Seqs() == old(Seqs())[seqAddress := Seqs()[seqAddress]]
      ensures var s, t := old(Seqs())[seqAddress], Seqs()[seqAddress];
              t.room <= s.room && t.size == if s.size < newSize || allowSpaceRelease then newSize else s.size
      ensures if !allowSpaceRelease then L == old(L)
              else
                && ChainOf(L, seqAddress) == ChainOf(old(L), seqAddress)[..fi + 1]
                && Free(L) == Free(old(L)) + ChainOf(old(L), seqAddress)[fi + 1..]
    {
      hide DiskOk, View, Word, Pos;
      SequenceFacts(file, blockSize, L, seqAddress);
      BlockFacts(file, blockSize, L, seqAddress, fi);
      UpdateSize(seqAddress, newSize, allowSpaceRelease);
      SequenceFacts(file, blockSize, L, seqAddress);
      if allowSpaceRelease {
        BlockFacts(file, blockSize, L, seqAddress, fi);
        ReleaseAfter(finalBlock, seqAddress, fi);
      }
    }

    /** The part of write that stores the new total size. */
    method UpdateSize(seqAddress: nat, newSize: nat, force: bool)
      requires Valid() && seqAddress in Seqs() && newSize <= |Seqs()[seqAddress].room| && newSize < ADDR_LIMIT
      modifies this`file
      ensures Valid() && |file| == |old(file)|
      ensures Seqs() == old(Seqs())[seqAddress := Stored(old(Seqs())[seqAddress].room,
                                      if old(Seqs())[seqAddress].size < newSize || force then newSize
                                          else old(Seqs())[seqAddress].size)]
    {
      hide DiskOk, View, Word;
      SequenceFacts(file, blockSize, L, seqAddress);
      BlockFacts(file, blockSize, L, seqAddress, 0);
      var currentChainSize := GetChainSize(seqAddress);
      if currentChainSize < newSize || force {
        SizeWrite(file, blockSize, L, seqAddress, newSize);
        SizeKeepsHeader(file, seqAddress, ToLE(newSize, PTR));
        file := Poke(file, seqAddress + PTR, ToLE(newSize, PTR));
      }
    }

    /** The part of write that gives back the blocks behind block `fi`. */
    method ReleaseAfter(finalBlock: nat, ghost h: nat, ghost fi: nat)
      requires Valid() && h in Seqs() && fi < |ChainOf(L, h)| && ChainOf(L, h)[fi] == finalBlock
      requires Seqs()[h].size <= Pos(blockSize, fi + 1, PTR)
      modifies this
      ensures Valid() && h in Seqs() && Seqs() == old(Seqs())[h := Seqs()[h]]
      ensures Seqs()[h].size == old(Seqs())[h].size && Seqs()[h].Fits() && Seqs()[h].room <= old(Seqs())[h].room
      ensures ChainOf(L, h) == ChainOf(old(L), h)[..fi + 1]
      ensures Free(L) == Free(old(L)) + ChainOf(old(L), h)[fi + 1..]
      ensures |file| == |old(file)|
    {
      hide DiskOk, View, Word, Pos, U32;
      SequenceFacts(file, blockSize, L, h);
      BlockFacts(file, blockSize, L, h, fi);
      var nextBlockAddr := ReadNextBlockAddress(finalBlock);
      if nextBlockAddr != 0 {
        ghost var f0, L0 := file, L;
        CutRoom(f0, blockSize, L0, h, fi + 1);
        ReleaseDisk(f0, blockSize, L0, h, fi + 1);
        InternalDeleteBlockSq(nextBlockAddr);
        LinkBlocks(finalBlock, 0);
        L := Released(L0, h, fi + 1);
        ReleaseHeader(f0, file, blockSize, L0, h, fi + 1);
        SequenceCut(f0, L0, file, blockSize, h, fi + 1);
      } else {
        assert ChainOf(L, h)[..fi + 1] == ChainOf(L, h);
      }
    }

    method GetAddressOfTheLastBlockInTheSequence(parentBlockAddr: nat, ghost i: nat) returns (last: nat)
      requires Valid()
      requires if Free(L) == [] then parentBlockAddr == 0 else i < |Free(L)| && Free(L)[i] == parentBlockAddr
      ensures last == if Free(L) == [] then 0 else Free(L)[|Free(L)| - 1]
      decreases |Free(L)| - i
    {
      hide DiskOk, Word;
      FreeFacts(file, blockSize, L, i);
      var nextBlockAddr := ReadNextBlockAddress(parentBlockAddr);
      if nextBlockAddr == 0 {
        return parentBlockAddr;
      } else {
        last := GetAddressOfTheLastBlockInTheSequence(nextBlockAddr, i + 1);
      }
    }

    /** internalDeleteBlockSq; no caller passes its second parameter. */
    method InternalDeleteBlockSq(seqAddress: nat)
      requires Valid() && seqAddress != 0
      modifies this`file, this`header
      ensures |old(file)| >= HEADER && (Free(L) != [] ==> Free(L)[|Free(L)| - 1] + PTR <= |old(file)|)
      ensures file == FreeFile(old(file), Free(L), seqAddress)
      ensures header == if Free(L) == [] then old(header).(deletedSeqAddr := seqAddress) else old(header)
    {
      hide DiskOk, Word, Poke;
      FreeFacts(file, blockSize, L, 0);
      var lastBlockAddr := GetAddressOfTheLastBlockInTheSequence(header.deletedSeqAddr, 0);
      if Free(L) != [] {
        FreeFacts(file, blockSize, L, |Free(L)| - 1);
      }
      if lastBlockAddr != 0 {
        LinkBlocks(lastBlockAddr, seqAddress);
      } else {
        header := header.(deletedSeqAddr := seqAddress);
        WriteHeader();
      }
    }

    /** Gives all blocks of a sequence to the free chain. */
    method DeleteBlockSq(seqAddress: nat)
      requires Valid() && seqAddress in Seqs()
      modifies this
      ensures Valid() && Seqs() == old(Seqs()) - {seqAddress} && |file| == |old(file)|
      ensures Free(L) == Free(old(L)) + ChainOf(old(L), seqAddress)
    {
      hide DiskOk, View, Word;
      SequenceFacts(file, blockSize, L, seqAddress);
      ghost var f0, L0 := file, L;
      DropDisk(f0, blockSize, L0, seqAddress);
      InternalDeleteBlockSq(seqAddress);
      L := Dropped(L0, seqAddress);
      DropHeader(f0, file, blockSize, L0, seqAddress);
    }
  }

  /** `k` blocks were taken from the head of the free chain, and as many of them as it did not have were added to
      the file. */
  ghost predicate Took(free: seq<nat>, size: nat, free': seq<nat>, size': nat, B: nat, k: nat) {
    if k <= |free| then free' == free[k..] && size' == size
    else free' == [] && size' == size + Span(B, k - |free|)
  }

  /** Every block that was taken was free before or is new in the file. */
  lemma TookConserves(free: seq<nat>, size: nat, free': seq<nat>, size': nat, B: nat, k: nat)
    requires Took(free, size, free', size', B, k)
    ensures |free'| <= |free| && size <= size' && Span(B, k) == Span(B, |free| - |free'|) + (size' - size)
    ensures size < size' ==> free' == []
  {
    if k > |free| { SpanAdd(B, |free|, k - |free|); }
  }

  /** Those were the blocks by which the chain of `h` got longer. */
  ghost predicate TookFor(L: Layout, size: nat, L': Layout, size': nat, B: nat, h: nat) {
    && ChainOf(L, h) <= ChainOf(L', h)
    && Took(Free(L), size, Free(L'), size', B, |ChainOf(L', h)| - |ChainOf(L, h)|)
  }

  /** The end of the chain of `h` went to the end of the free chain. */
  ghost predicate GaveBack(L: Layout, L': Layout, h: nat) {
    && ChainOf(L', h) <= ChainOf(L, h)
    && Free(L') == Free(L) + ChainOf(L, h)[|ChainOf(L', h)|..]
  }

  /** The chain was what is left of it and what joined the free chain, whose earlier blocks stay in front. */
  lemma GaveBackConserves(L: Layout, L': Layout, h: nat)
    requires GaveBack(L, L', h)
    ensures Free(L) <= Free(L') && ChainOf(L, h) == ChainOf(L', h) + Free(L')[|Free(L)|..]
  {
  }

  lemma {:induction false} SpanAdd(B: nat, m: nat, n: nat)
    ensures Span(B, m + n) == Span(B, m) + Span(B, n)
  {
    if n != 0 { SpanAdd(B, m, n - 1); }
  }

  lemma TookOne(free: seq<nat>, size: nat, free': seq<nat>, size': nat, B: nat)
    requires free' == if free == [] then [] else free[1..]
    requires size' == size + if free == [] then B else 0
    ensures Took(free, size, free', size', B, 1)
  {
    assert Span(B, 1) == Span(B, 0) + B;
  }

  lemma TookNone(L: Layout, size: nat, B: nat, h: nat)
    ensures TookFor(L, size, L, size, B, h)
  {
    assert Free(L)[0..] == Free(L);
  }

  lemma TookBoth(free: seq<nat>, size: nat, free1: seq<nat>, size1: nat, free2: seq<nat>, size2: nat, B: nat, j: nat,
      k: nat)
    requires Took(free, size, free1, size1, B, j) && Took(free1, size1, free2, size2, B, k)
    ensures Took(free, size, free2, size2, B, j + k)
  {
    hide Span;
    if j + k <= |free| {
      assert free[j..][k..] == free[j + k..];
    } else if j > |free| {
      SpanAdd(B, j - |free|, k);
    }
  }

  lemma TookMore(L: Layout, size: nat, L1: Layout, size1: nat, L2: Layout, size2: nat, B: nat, h: nat)
    requires TookFor(L, size, L1, size1, B, h) && TookFor(L1, size1, L2, size2, B, h)
    ensures TookFor(L, size, L2, size2, B, h)
  {
    hide Took;
    var j, k := |ChainOf(L1, h)| - |ChainOf(L, h)|, |ChainOf(L2, h)| - |ChainOf(L1, h)|;
    TookBoth(Free(L), size, Free(L1), size1, Free(L2), size2, B, j, k);
  }

  /** A write either takes blocks for a longer chain or gives back the end of a shorter one, never both. */
  ghost predicate SpaceMoved(L: Layout, size: nat, L': Layout, size': nat, B: nat, h: nat, release: bool) {
    if ChainOf(L, h) <= ChainOf(L', h) then TookFor(L, size, L', size', B, h)
    else release && size' == size && GaveBack(L, L', h)
  }

  /** In every write, what the chain has more the free chain has less or the file has more, and the other way round. */
  lemma SpaceConserved(L: Layout, size: nat, L': Layout, size': nat, B: nat, h: nat, release: bool)
    requires SpaceMoved(L, size, L', size', B, h, release)
    ensures Span(B, |ChainOf(L', h)|) + Span(B, |Free(L')|) + size
         == Span(B, |ChainOf(L, h)|) + Span(B, |Free(L)|) + size'
  {
    hide Span;
    var n, n', m, m' := |ChainOf(L, h)|, |ChainOf(L', h)|, |Free(L)|, |Free(L')|;
    if n' >= n && TookFor(L, size, L', size', B, h) {
      TookConserves(Free(L), size, Free(L'), size', B, n' - n);
      SpanAdd(B, n, n' - n);
      SpanAdd(B, m', m - m');
    } else {
      GaveBackConserves(L, L', h);
      SpanAdd(B, n', n - n');
      SpanAdd(B, m, m' - m);
    }
  }

  lemma SpaceTaken(L: Layout, size: nat, L': Layout, size': nat, B: nat, h: nat)
    requires TookFor(L, size, L', size', B, h)
    ensures SpaceMoved(L, size, L', size', B, h, false)
  {
  }

  lemma SpaceReleased(L: Layout, size: nat, L1: Layout, size1: nat, L2: Layout, B: nat, h: nat, fi: nat)
    requires TookFor(L, size, L1, size1, B, h)
    requires |ChainOf(L1, h)| == if fi + 1 > |ChainOf(L, h)| then fi + 1 else |ChainOf(L, h)|
    requires ChainOf(L2, h) == ChainOf(L1, h)[..fi + 1] && Free(L2) == Free(L1) + ChainOf(L1, h)[fi + 1..]
    ensures SpaceMoved(L, size, L2, size1, B, h, true)
  {
    var c, c1 := ChainOf(L, h), ChainOf(L1, h);
    if fi + 1 >= |c| {
      assert c1[..fi + 1] == c1 && Free(L1) + c1[fi + 1..] == Free(L1);
    } else {
      assert c1 == c && Free(L)[0..] == Free(L);
    }
  }

  /** A seek past the end of a sequence: the file gets a block that belongs to no sequence anybody knows. */
  method SeekPastEnd() returns (block: nat, oldSize: nat, newSize: nat)
    ensures block != HEADER && oldSize == HEADER + 64 && newSize >= oldSize + 64
  {
    hide DiskOk, View, Word;
    var store := new FileStorage.Create(64);
    oldSize := |store.file|;
    NoneFree(store.file, 64, store.L);
    ghost var j;
    var offset;
    block, offset, j := store.SeekChain(HEADER, 100, false);
    newSize := |store.file|;
  }

  /** A file of one block that holds a sequence has no free block. */
  lemma NoneFree(f: ByteSeq, B: nat, L: Layout)
    requires DiskOk(f, B, L) && |f| == HEADER + B && HEADER in View(f, B, L)
    ensures Free(L) == []
  {
    hide LiveOk, Linked, Word;
    if Free(L) != [] {
      BlockAddress(f, B, L, 0, 0);
      BlockAddress(f, B, L, HEADER, 0);
      OtherBlock(L, 0, 0, HEADER, 0);
    }
  }

  /** What a sequence stores after `data` is written at offset `o` of its room. */
  ghost function Written(s: Stored, o: nat, data: ByteSeq, release: bool): ByteSeq
    requires o <= |s.room| && s.Fits()
  {
    var n := if s.size < o + |data| || release then o + |data| else s.size;
    Poke(s.room, o, data)[..n]
  }

  /** The same in terms of the stored bytes alone, for every offset up to their number. */
  lemma WrittenData(s: Stored, o: nat, data: ByteSeq, release: bool)
    requires s.Fits() && o <= s.size
    ensures Written(s, o, data, release) == if release then s.Data()[..o] + data else Poke(s.Data(), o, data)
  {
  }

  lemma EndFacts(B: nat, fi: nat, fo: nat)
    requires B > FIRST && InPayload(B, fi, fo)
    ensures 0 <= Pos(B, fi, fo) <= Pos(B, fi, B) == Pos(B, fi + 1, PTR)
    ensures fi > 0 && fo > PTR ==> Pos(B, fi, PTR) < Pos(B, fi, fo)
  {
    PosFacts(B, fi, fo);
    PosFacts(B, fi, B);
  }

  lemma FewestHere(B: nat, fi: nat, size: nat)
    requires B > FIRST && size <= Pos(B, fi + 1, PTR) && (fi > 0 ==> Pos(B, fi, PTR) < size)
    ensures FewestBlocks(B, fi + 1, size)
  {
  }

  lemma ScrolledFacts(before: map<nat, Stored>, after: map<nat, Stored>, B: nat, h: nat, i: nat, o: nat, d: ByteSeq)
    requires Scrolled(before, after, B, h, i, o, d)
    ensures h in before && h in after && after == before[h := after[h]] && after[h].size == before[h].size
  {
  }

  lemma WrittenRoom(before: map<nat, Stored>, after: map<nat, Stored>, s: Stored, B: nat, h: nat, j: nat, o: nat,
                    data: ByteSeq, release: bool)
    requires Scrolled(before, after, B, h, j, o, data) && before[h].Fits()
    requires var n := Pos(B, j, o) + |data|; s.size == if before[h].size < n || release then n else before[h].size
    requires s.Fits() && s.room <= after[h].room
    ensures 0 <= Pos(B, j, o) <= |before[h].room| && s.Data() == Written(before[h], Pos(B, j, o), data, release)
  {
    hide Pos;
  }

  lemma SizeKeepsHeader(f: ByteSeq, h: nat, data: ByteSeq)
    requires HEADER <= h && h + PTR <= |f|
    ensures var f' := Poke(f, h + PTR, data); |f'| >= HEADER && Word(f', PTR) == Word(f, PTR)
  {
    PokeFrame(f, h + PTR, data, PTR, PTR + PTR);
  }

  /** The head of the free chain is in the header, and each free block points to the next one. */
  lemma FreeFacts(f: ByteSeq, B: nat, L: Layout, i: nat)
    requires DiskOk(f, B, L)
    ensures |f| >= HEADER && Word(f, 0) == HEADER && Word(f, PTR) == if Free(L) == [] then 0 else Free(L)[0]
    ensures i < |Free(L)| ==>
              HEADER <= Free(L)[i] && Free(L)[i] + PTR <= |f| && Word(f, Free(L)[i]) == NextIn(Free(L), i)
    ensures i + 1 < |Free(L)| ==> HEADER <= Free(L)[i + 1]
  {
    hide LiveOk, Word;
    if i < |Free(L)| { BlockAddress(f, B, L, 0, i); }
    if i + 1 < |Free(L)| { BlockAddress(f, B, L, 0, i + 1); }
  }

  /** The first `j` blocks of a sequence offer the first part of its room. */
  lemma CutRoom(f: ByteSeq, B: nat, L: Layout, h: nat, j: nat)
    requires DiskOk(f, B, L) && h in View(f, B, L) && 0 < j <= |ChainOf(L, h)|
    ensures InFile(f, B, ChainOf(L, h)[..j]) && B > FIRST
    ensures Raw(f, B, ChainOf(L, h)[..j]) <= View(f, B, L)[h].room && |Raw(f, B, ChainOf(L, h)[..j])| == Pos(B, j, PTR)
    ensures h + FIRST <= |f| && Word(f, h + PTR) == View(f, B, L)[h].size
  {
    hide Word, Rest, Pos;
    var chain := ChainOf(L, h);
    BlockAddress(f, B, L, h, 0);
    LinkedInFile(f, B, chain);
    InFileDrop(f, B, chain, j);
    assert chain[..j] + chain[j..] == chain;
    RestAppend(f, B, chain[..j], chain[j..], 0, FIRST);
    RawLength(f, B, chain[..j]);
  }

  lemma ReleaseHeader(f: ByteSeq, f': ByteSeq, B: nat, L: Layout, h: nat, j: nat)
    requires DiskOk(f, B, L) && h in L.chains && h != 0 && 0 < j < |L.chains[h]| && DiskOk(f', B, Released(L, h, j))
    ensures |f'| >= HEADER && Word(f', PTR) == if Free(L) == [] then L.chains[h][j] else Word(f, PTR)
  {
    hide LiveOk, Linked, Word;
  }

  lemma DropHeader(f: ByteSeq, f': ByteSeq, B: nat, L: Layout, h: nat)
    requires DiskOk(f, B, L) && h in L.chains && h != 0 && DiskOk(f', B, Dropped(L, h))
    ensures |f'| >= HEADER && Word(f', PTR) == if Free(L) == [] then h else Word(f, PTR)
  {
    hide LiveOk, Linked, Word;
  }

  lemma SequenceCut(f: ByteSeq, L: Layout, f': ByteSeq, B: nat, h: nat, j: nat)
    requires DiskOk(f, B, L) && h in View(f, B, L) && 0 < j <= |ChainOf(L, h)| && InFile(f, B, ChainOf(L, h)[..j])
    requires B > FIRST && Raw(f, B, ChainOf(L, h)[..j]) <= View(f, B, L)[h].room
    requires h + FIRST <= |f| && Word(f, h + PTR) == View(f, B, L)[h].size <= |Raw(f, B, ChainOf(L, h)[..j])|
    requires LiveOk(f, B, ChainOf(L, h)) && ChainOf(L, h)[0] == h
    requires View(f', B, Released(L, h, j)) == View(f, B, L)[h := CutAt(f, B, ChainOf(L, h), j)]
    ensures ChainOf(Released(L, h, j), h) == ChainOf(L, h)[..j]
    ensures var s := View(f', B, Released(L, h, j));
            && h in s && s == View(f, B, L)[h := s[h]] && s[h].Fits()
            && s[h].size == View(f, B, L)[h].size && s[h].room <= View(f, B, L)[h].room
  {
    hide LiveOk, Linked, Word, Raw;
    assert h in L.chains && h != 0;
    assert View(f, B, L)[h] == Held(f, B, L.chains[h]);
  }

  /** `n` bytes of `s` from position `p` on, where there are that many. */
  ghost function Piece(s: ByteSeq, p: int, n: nat): ByteSeq {
    if 0 <= p && p + n <= |s| then s[p..p + n] else []
  }

  lemma PieceJoin(s: ByteSeq, p: int, m: nat, n: nat)
    requires 0 <= p && p + m + n <= |s|
    ensures Piece(s, p, m) + Piece(s, p + m, n) == Piece(s, p, m + n)
  {
  }

  /** What a read of `n` bytes at offset `o` of the byte string `s` yields. */
  ghost function Clamped(s: ByteSeq, o: nat, n: nat): ByteSeq {
    if o > |s| then [] else if o + n > |s| then s[o..] else s[o..o + n]
  }

  lemma PieceClamped(s: Stored, o: nat, n: nat, count: nat)
    requires s.Fits() && o <= s.size && count == if o + n > s.size then s.size - o else n
    ensures Piece(s.room, o, count) == Clamped(s.Data(), o, n)
  {
  }

  lemma ReadInBlock(f: ByteSeq, B: nat, L: Layout, h: nat, i: nat, o: nat, n: nat)
    requires DiskOk(f, B, L) && h in View(f, B, L) && i < |ChainOf(L, h)| && InPayload(B, i, o) && o + n <= B
    ensures L.chains[h][i] + B <= |f| && 0 <= Pos(B, i, o) && Pos(B, i, o) + n <= |View(f, B, L)[h].room|
    ensures f[L.chains[h][i] + o..L.chains[h][i] + o + n] == Piece(View(f, B, L)[h].room, Pos(B, i, o), n)
  {
    hide Word, Rest;
    BlockAddress(f, B, L, h, i);
    LinkedInFile(f, B, L.chains[h]);
    RawSlice(f, B, L.chains[h], i, o, n);
  }

  /** `n` bytes from offset `o` of block `i` on are more than the sequence has room for. */
  ghost predicate Beyond(B: nat, s: Stored, i: nat, o: nat, n: nat) {
    B > FIRST && Pos(B, i, o) + n > |s.room|
  }

  /** The position `n` bytes behind offset `o` of block `i`, in the first block that has it. */
  ghost predicate SeekEnd(B: nat, chain: seq<nat>, i: nat, o: nat, n: nat, block: nat, j: nat, offset: nat) {
    && B > FIRST && i <= j < |chain| && chain[j] == block && offset <= B
    && Pos(B, j, offset) == Pos(B, i, o) + n
    && (if j == i then o <= offset else PTR < offset)
  }

  /** The last byte of a chain, where a read-only seek past its end stops. */
  ghost predicate LastPlace(B: nat, chain: seq<nat>, block: nat, offset: nat) {
    chain != [] && block == chain[|chain| - 1] && offset == B - 1
  }

  lemma LastPlaceOne(B: nat, chain: seq<nat>, block: nat, offset: nat, block': nat, offset': nat)
    requires LastPlace(B, chain, block, offset) && LastPlace(B, chain, block', offset')
    ensures block == block' && offset == offset' && block in chain && offset < B
  {
  }

  /** The seek left the sequence: it ended in a block that was no part of any, and changed no sequence. */
  ghost predicate Strayed(before: map<nat, Stored>, after: map<nat, Stored>, block: nat) {
    && block in after && block !in before
    && forall g :: g in before ==> g in after && after[g] == before[g]
  }

  /** Without the sequences that are new everything is as it was. */
  lemma StrayedKeeps(before: map<nat, Stored>, after: map<nat, Stored>, block: nat)
    requires Strayed(before, after, block)
    ensures before.Keys < after.Keys && block in after.Keys - before.Keys
    ensures after - (after.Keys - before.Keys) == before
  {
  }

  lemma NewIsUnknown(f: ByteSeq, B: nat, L: Layout, M: Layout, a: nat)
    requires IsNewSequence(L, M, a)
    ensures ChainOf(M, a) == [a] && a !in View(f, B, L)
  {
    hide LiveOk;
  }

  /** `d` was put at offset `o` of block number `i` of sequence `h`; beyond it the room only got longer. */
  ghost predicate Scrolled(before: map<nat, Stored>, after: map<nat, Stored>, B: nat, h: nat, i: nat, o: nat,
      d: ByteSeq) {
    && B > FIRST && h in before && h in after && after == before[h := after[h]]
    && after[h].size == before[h].size
    && 0 <= Pos(B, i, o) <= |before[h].room|
    && Poke(before[h].room, Pos(B, i, o), d) <= after[h].room
  }

  /** A bound on how much the file grows when `n` bytes are put at offset `o` of a block:
      every further block takes in at least half as many bytes as it adds. */
  function Growth(B: nat, o: nat, n: nat): nat {
    2 * n + if o == PTR then 0 else B
  }

  lemma GrowthOrder(B: nat, o: nat, n: nat)
    ensures Growth(B, o, n) <= Growth(B, FIRST, n)
  {
  }

  lemma GrowthStep(B: nat, o: nat, n: nat, m: nat)
    requires B > FIRST && o <= B && m <= n
    ensures m == n ==> 0 <= Growth(B, o, n)
    ensures m < n && m == B - o ==> B + Growth(B, PTR, n - m) <= Growth(B, o, n)
  {
  }

  /** Where a scroll of `n` bytes from offset `o` of block `i` ends: just behind its last byte, in the first
      block that can hold it, and a chain that had `oldCount` blocks got no more than it needed. */
  ghost predicate ScrollEnd(B: nat, oldCount: nat, chain: seq<nat>, i: nat, o: nat, n: nat, fb: nat, fi: nat, fo: nat) {
    && B > FIRST && i <= fi < |chain| && chain[fi] == fb && InPayload(B, fi, fo)
    && Pos(B, fi, fo) == Pos(B, i, o) + n
    && (fi == i || fo > PTR)
    && |chain| == if fi + 1 > oldCount then fi + 1 else oldCount
  }

  lemma EndHere(B: nat, chain: seq<nat>, i: nat, o: nat, n: nat)
    requires B > FIRST && i < |chain| && InPayload(B, i, o) && o + n <= B
    ensures ScrollEnd(B, |chain|, chain, i, o, n, chain[i], i, o + n)
  {
    PosAdd(B, i, o, n);
  }

  /** A scroll that fills block `i` and goes on in the next one, which was there or was added. */
  lemma EndFurther(B: nat, oldCount: nat, count: nat, chain: seq<nat>, i: nat, o: nat, n: nat, fb: nat, fi: nat,
      fo: nat)
    requires B > FIRST && InPayload(B, i, o) && B - o < n && count == if i + 2 > oldCount then i + 2 else oldCount
    requires ScrollEnd(B, count, chain, i + 1, PTR, n - (B - o), fb, fi, fo)
    ensures ScrollEnd(B, oldCount, chain, i, o, n, fb, fi, fo)
  {
    PosStep(B, i, PTR);
    PosAdd(B, i, o, B - o);
    PosFacts(B, i, B);
  }

  lemma ScrollDone(s0: map<nat, Stored>, s1: map<nat, Stored>, B: nat, h: nat, i: nat, o: nat, d: ByteSeq)
    requires B > FIRST && h in s0 && 0 <= Pos(B, i, o) <= |s0[h].room|
    requires s1 == s0[h := Stored(Poke(s0[h].room, Pos(B, i, o), d), s0[h].size)]
    ensures Scrolled(s0, s1, B, h, i, o, d) && h in s1
  {
    hide Pos, Poke;
  }

  lemma ScrollCompose(s0: map<nat, Stored>, s1: map<nat, Stored>, s2: map<nat, Stored>, s3: map<nat, Stored>,
                      B: nat, h: nat, i: nat, o: nat, one: ByteSeq, two: ByteSeq)
    requires B > FIRST && o + |one| == B && InPayload(B, i, o)
    requires Scrolled(s0, s1, B, h, i, o, one)
    requires s2 == s1 || Lengthened(s1, s2, h)
    requires Scrolled(s2, s3, B, h, i + 1, PTR, two)
    ensures Scrolled(s0, s3, B, h, i, o, one + two)
  {
    hide Pos, Poke;
    PosFacts(B, i, o);
    PosAdd(B, i, o, |one|);
    PokeTwice(s0[h].room, Pos(B, i, o), one, two, s2[h].room);
  }

  lemma WriteKeepsHeader(f: ByteSeq, B: nat, L: Layout, h: nat, i: nat, o: nat, data: ByteSeq)
    requires DiskOk(f, B, L) && h in L.chains && h != 0 && i < |L.chains[h]| && L.chains[h][i] + o <= |f|
    requires L.chains[h][i] >= HEADER
    ensures var f' := Poke(f, L.chains[h][i] + o, data); |f'| >= HEADER && Word(f', PTR) == Word(f, PTR)
  {
    hide LiveOk, Linked, Shape;
    PokeFrame(f, L.chains[h][i] + o, data, PTR, PTR + PTR);
  }

  /** Sequence `h` got more room; nothing else changed. */
  ghost predicate Lengthened(before: map<nat, Stored>, after: map<nat, Stored>, h: nat) {
    && h in before && h in after && after == before[h := after[h]]
    && after[h].size == before[h].size && before[h].room <= after[h].room
  }

  lemma NextBlockReady(f0: ByteSeq, L0: Layout, f1: ByteSeq, L1: Layout, B: nat, h: nat, a: nat)
    requires DiskOk(f0, B, L0) && DiskOk(f1, B, L1) && IsNewSequence(L0, L1, a) && h in L0.chains && h != 0
    ensures h in L1.chains && L1.chains[h] == L0.chains[h] && a in L1.chains && L1.chains[a] == [a] && a != 0 && a != h
    ensures |L1.chains[h]| > 0 && LiveOk(f1, B, L1.chains[h]) && a + B <= |f1|
  {
    hide LiveOk, Linked;
    BlockAddress(f1, B, L1, a, 0);
  }

  lemma NextBlockAttached(f0: ByteSeq, L0: Layout, f1: ByteSeq, L1: Layout, f2: ByteSeq, B: nat, h: nat, a: nat)
    requires DiskOk(f0, B, L0) && DiskOk(f1, B, L1) && IsNewSequence(L0, L1, a) && h in L0.chains && h != 0
    requires View(f1, B, L1) == View(f0, B, L0)[a := EmptySeq(B)]
    requires a + B <= |f1| && h in L1.chains && LiveOk(f1, B, L1.chains[h])
    requires DiskOk(f2, B, Attached(L1, h, a))
    requires View(f2, B, Attached(L1, h, a)) == (View(f1, B, L1) - {a})[h := Extended(f1, B, L1.chains[h], a)]
    ensures ChainOf(Attached(L1, h, a), h) == ChainOf(L0, h) + [a]
    ensures Lengthened(View(f0, B, L0), View(f2, B, Attached(L1, h, a)), h)
  {
    hide LiveOk, Linked, Raw, Shape, HeaderOk, Word;
    assert View(f1, B, L1)[h] == Held(f1, B, L1.chains[h]);
    assert a !in View(f0, B, L0);
  }

  lemma AttachKeepsHeader(f: ByteSeq, f': ByteSeq, B: nat, L: Layout, h: nat, a: nat)
    requires DiskOk(f, B, L) && h in L.chains && h != 0 && a != 0 && DiskOk(f', B, Attached(L, h, a))
    ensures Word(f', PTR) == Word(f, PTR)
  {
    hide LiveOk, Linked, Word;
  }
}
