/** The two layers together: bytes decoded by the current reader, handed to
    the resolver's pool, and materialized from the root id. */
module Pipeline {
  import opened Wrappers
  import opened Words
  import Raw
  import Reader
  import Utf8
  import Graph

  const Greeting: Reader.Chunk := Reader.Chunk(Reader.Tag.String, 1, 4, [104, 105, 33, 10])

  /** The nine bytes [0, 1, 3, 0, 4, 104, 105, 33, 10] decode whole to one
      String chunk with id 1 and content "hi!\n". */
  lemma GreetingDecodes()
    ensures Reader.Decode({}, [0, 1, 3, 0, 4, 104, 105, 33, 10])
      == Reader.Step(Ok(Greeting), {1}, 9)
  {
    assert Reader.Frame(Greeting) + [] == [0, 1, 3, 0, 4, 104, 105, 33, 10];
    Reader.DecodeFrame({}, Greeting, []);
  }

  /** That chunk, alone in the pool, materializes from the root to the text
      "hi!\n" and leaves the pool empty. */
  lemma GreetingResolves()
    ensures Graph.Materialize(Graph.PoolOf([Reader.AsRawChunk(Greeting)]), 1)
      == Graph.Eval(Ok(Graph.Piece(1, Raw.String, Graph.PieceContent.PStr("hi!\n"))), map[])
  {
    var c := Reader.AsRawChunk(Greeting);
    Utf8.AsciiDecodes(c.content);
    var text := Utf8.Decode(c.content).value;
    assert text[0] == 'h' && text[1] == 'i' && text[2] == '!' && text[3] == '\n';
    assert text == "hi!\n";
    var pool := Graph.PoolOf([c]);
    assert pool == map[1 := c];
    assert pool - {1} == map[];
  }
}
