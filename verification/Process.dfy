/** The instrumented process as the engine changes it: program memory and JIT code blocks. */
module Process {
  import opened Words
  import opened Memory

  /** An error is a C++ exception that reaches the caller. */
  datatype Result<+T> = Ok(value: T) | Error(message: string)

  class CodeMemory {
    var mem: Memory
    /** Live code blocks by address. */
    var blocks: map<Word, seq<Byte>>

    constructor (mem: Memory)
      ensures this.mem == mem && blocks == map[]
    {
      this.mem, blocks := mem, map[];
    }

    /** makeWritableAndPatch, when the protection calls succeed. */
    method Patch(addr: Word, data: seq<Byte>)
      modifies this`mem
      ensures mem == Write(old(mem), addr, data)
    {
      mem := Write(mem, addr, data);
    }

    /** JitRuntime::add: the allocator answers with the address of a new block, or fails. */
    method Add(code: seq<Byte>, answer: Option<Word>) returns (r: Option<Word>)
      requires answer.Some? ==> answer.value !in blocks
      modifies this`blocks
      ensures r == answer
      ensures blocks == if answer.Some? then old(blocks)[answer.value := code] else old(blocks)
    {
      if answer.Some? {
        blocks := blocks[answer.value := code];
      }
      r := answer;
    }

    /** releaseCode: a null pointer is nothing to release, any other must be a live block, so that no
        block is ever released twice. */
    method Release(code: Option<Word>)
      requires code.Some? ==> code.value in blocks
      modifies this`blocks
      ensures blocks == Without(old(blocks), Opt(code))
    {
      if code.Some? {
        blocks := blocks - {code.value};
      }
    }
  }

  /** What the allocators answer during one call: the new entry and the two code blocks. */
  datatype AllocatorAnswers = Answers(entry: Word, relocated: Option<Word>, trampoline: Option<Word>)

  /** The second block is not the first one once more. */
  type Answers = a: AllocatorAnswers | a.trampoline.Some? ==> a.trampoline != a.relocated witness Answers(0, None, None)

  predicate Fresh(answers: Answers, blocks: map<Word, seq<Byte>>) {
    && (answers.relocated.Some? ==> answers.relocated.value !in blocks)
    && (answers.trampoline.Some? ==> answers.trampoline.value !in blocks)
  }

  function Opt<T(==)>(o: Option<T>): set<T> {
    if o.Some? then {o.value} else {}
  }

  function Without<K(==), V>(m: map<K, V>, ks: set<K>): map<K, V> {
    m - ks
  }

  /** New blocks came on top of the blocks there were. */
  predicate Grown(before: map<Word, seq<Byte>>, after: map<Word, seq<Byte>>, added: set<Word>) {
    added !! before.Keys && after.Keys == before.Keys + added && Without(after, added) == before
  }

  /** Some blocks are gone, and all of them were live. */
  predicate Shrunk(before: map<Word, seq<Byte>>, after: map<Word, seq<Byte>>, gone: set<Word>) {
    gone <= before.Keys && after.Keys == before.Keys - gone && after == Without(before, gone)
  }

  lemma WithoutTwice<K, V>(m: map<K, V>, xs: set<K>, ys: set<K>)
    ensures Without(Without(m, xs), ys) == Without(m, xs + ys)
  {
  }

  lemma KeysWithout<K, V>(m: map<K, V>, ks: set<K>)
    ensures Without(m, ks).Keys == m.Keys - ks
  {
  }

  ghost predicate InBlock(blocks: map<Word, seq<Byte>>, a: Word, x: int) {
    a in blocks && InExtent(a, |blocks[a]|, x)
  }

  ghost function BlockByte(m: Memory, blocks: map<Word, seq<Byte>>, x: int): Byte {
    if exists a :: InBlock(blocks, a, x) then
      var a :| InBlock(blocks, a, x);
      blocks[a][x - a]
    else m(x)
  }

  /** What the processor sees: the code blocks over the program's memory. */
  ghost function Physical(m: Memory, blocks: map<Word, seq<Byte>>): Memory {
    (x: int) => BlockByte(m, blocks, x)
  }

  /** Blocks lie apart from one another. */
  ghost predicate BlocksApart(blocks: map<Word, seq<Byte>>) {
    forall a, b, x: int :: InBlock(blocks, a, x) && InBlock(blocks, b, x) ==> a == b
  }

  lemma BlockVisible(m: Memory, blocks: map<Word, seq<Byte>>, a: Word)
    requires BlocksApart(blocks) && a in blocks
    ensures Holds(Physical(m, blocks), a, blocks[a])
  {
    forall x: int | a <= x < a + |blocks[a]| ensures Physical(m, blocks)(x) == blocks[a][x - a] {
      assert InBlock(blocks, a, x);
    }
  }

  lemma ProgramVisible(m: Memory, blocks: map<Word, seq<Byte>>, x: int)
    requires forall a :: !InBlock(blocks, a, x)
    ensures Physical(m, blocks)(x) == m(x)
  {
  }
}
