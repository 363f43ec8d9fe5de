# Aho-Corasick dictionary matcher, modelled in Dafny

This project models the Go package `ahocorasick`, a multi-pattern string
matcher built on an Aho-Corasick automaton, and proves properties of the model.

- `New(dictionary)` builds a trie of the dictionary's words in three passes:
  1. insert every word, rune by rune, recording each node in the "level" of the byte offset where its rune starts;
  2. level by level, give each node its suffix link;
  3. level by level, give each node its dictionary suffix link.
- `Trie.Search(text)` runs the automaton over the text. It returns, for each word index, the byte offsets at which the automaton reported that word.

Pointers become indices into an arena `seq<Node>`, with the root at index 0. Strings are sequences of Unicode scalar values (`Text.Rune`). Byte lengths and byte offsets come from their UTF-8 widths (`Text.RuneLen`, `Text.ByteLen`, `Text.Encode`).

Modules:

- `Text`: runes, UTF-8 widths and encoding, prefixes, suffixes and occurrences.
- `Nodes`: the `entry`, `node` and `Trie` records, `node.find` and `node.entries`.
- `Builder`: `New` and its three passes, each proved equal to a specification function (`Pass1`, `SuffixLinked`, `DictLinked`).
- `BuildFacts` and `LinkFacts`: what the built tree looks like.
- `Matcher`: `Trie.Search`, proved equal to `SearchSpec`.
- `SearchFacts`: soundness of what Search reports.
- `Scenarios`: concrete runs.
  - `["ab"]` over `"abab"`: the second occurrence is missed.
  - `["abc", "c"]` over `"abc"`: `"c"` is missed.
  - `["a", "aa", "aaa"]` over `"aaa"`: one offset is reported twice.
  - `[""]` over any non-empty text: the result is an empty map, not nil.

Go iterates the node set of a level in an arbitrary order. The model picks the next node with `:|`, so the proofs hold for every iteration order. `New` is proved to return `Built(dictionary)` whatever order is taken.

The source promises less than a textbook Aho-Corasick automaton, and the model keeps its behaviour:

- Pass 2 leaves a node's suffix link nil even when the tree holds a proper suffix of the node, whenever the walk along its parent's suffix links finds no child for the rune before it stops. It stops in two ways:
  - it meets a node (the parent other than the root, or a node further along the chain) whose suffix link is nil. For `["ab", "xab", "xabc", "c"]`, "ab" has no link, "xab" links to "ab", and the walk for "xabc" stops at "ab", so "xabc" gets no link although "c" is present;
  - it ends at the root, whose link is nil, without finding a child there for the rune. The walk never falls back to the root when nothing is found.
- `find` therefore returns nil when the chain runs out, and Search restarts at the root without re-reading the rune.
- `entries` appends the recursive entries of every node on the dictionary suffix chain, so an entry can be reported twice.
- Empty words get no entry: their inner loop never runs.
- When a word occurs twice in the dictionary, the later index wins.

Search is proved sound but not complete, because the source is not complete.

## Model

| member | source | states |
|---|---|---|
| Builder.New | ahocorasick.go:7-108 | New returns the tree `Built(dictionary)` whatever order it visits the nodes of a level in. It returns no root exactly when the dictionary is empty. |
| Builder.MaxByteLen | ahocorasick.go:20-32 | The number of levels is at least every word's byte length. It equals the byte length of some word, and is 0 for an empty dictionary. |
| Builder.AssembleTrie | ahocorasick.go:35-62 | Pass 1 yields the arena `Pass1(dictionary)`. Every non-root node is recorded in exactly one level: the byte offset where its rune starts in the words through it. |
| Builder.InsertWord | ahocorasick.go:36-61 | The inner loop over one word gives `InsertFrom(nodes0, idx, word, 0, 0)` and keeps the levels exact. |
| Builder.LastRune | ahocorasick.go:48 | The test `i + RuneLen(r) == length` holds exactly at the word's last rune. |
| Builder.SuffixLinkOf | ahocorasick.go:77-85 | The suffix link pass 2 gives a node leads to a node that spells a proper suffix of the node's string. |
| Builder.SuffixWalk | ahocorasick.go:80-85 | The walk along suffix links finds a child that spells a suffix of the start node's string followed by the rune. |
| Builder.FindSuffixLink | ahocorasick.go:76-86 | The loop body computes `SuffixLinkOf(base, n)`, reading only links already set for lower levels. |
| Builder.LinkSuffixes | ahocorasick.go:75-87 | Pass 2 yields `SuffixLinked(base)` for every visiting order within a level. |
| Builder.SuffixLinkedSound | ahocorasick.go:75-87 | Pass 2 changes only suffix links, and every link it sets leads to a proper suffix. |
| Builder.FirstEntry | ahocorasick.go:98-103 | A node the walk returns has an entry. |
| Builder.FirstEntryChain | ahocorasick.go:98-103 | The walk returns the first node with an entry on the suffix chain, or nil when no node on that chain has an entry. |
| Builder.LinkDictSuffixes | ahocorasick.go:96-105 | Pass 3 yields `DictLinked(linked)` for every visiting order within a level. |
| BuildFacts.EntryOf | ahocorasick.go:48-51 | The entry pass 1 leaves for a string is that of the last dictionary word equal to it, with its byte length. It is none for the empty string and for non-words. |
| BuildFacts.Pass1Facts | ahocorasick.go:35-62 | After pass 1, the nodes spell exactly the prefixes of the words. Each node carries `EntryOf` its string. |
| BuildFacts.NodeCount | ahocorasick.go:35-62 | Pass 1 creates one node per distinct prefix of the words, the root included. |
| BuildFacts.BuiltFacts | ahocorasick.go:7-108 | The built tree has its root at 0, sound links, and one node per distinct prefix. A node has an entry exactly when it spells a non-empty word; the entry is the last such index, with the byte length. |
| BuildFacts.BuiltSuffixLinks | ahocorasick.go:75-87 | In the built tree the root has no suffix link and every child of the root links to the root. Every set link leads to a proper suffix. |
| BuildFacts.BuiltDictLink | ahocorasick.go:96-105 | Each node's dictionary suffix link is the first node with an entry on its suffix chain after itself, and nil when there is none. |
| LinkFacts.LinkLongest | ahocorasick.go:80-85 | A suffix link pass 2 sets leads to the longest proper suffix that any node spells. |
| LinkFacts.WalkLongest | ahocorasick.go:80-85 | The walk finds a node at least as long as every node that spells a suffix of the walked string followed by the rune. |
| LinkFacts.BuiltLinksLongest | ahocorasick.go:161-166 | Every suffix link of the built tree leads to the node that spells the longest proper suffix present in the tree. |
| Nodes.SuffixChainIsSuffix | ahocorasick.go:161-166 | Every node on a suffix chain spells a suffix of the chain's first node. |
| Nodes.DictChainIsSuffix | ahocorasick.go:168-172 | Every node on a dictionary suffix chain spells a suffix of the chain's first node. |
| Nodes.Find | ahocorasick.go:191-199 | `find` returns the child for the rune of a node on the suffix chain, and that child spells a suffix of the node's string followed by the rune. It returns nil exactly when no node on the chain has such a child. |
| Nodes.FindFirst | ahocorasick.go:187-199 | The child `find` returns hangs from the first node on the suffix chain with a child for the rune: no node on the chain that is at least as long as the returned child has a child for the rune. |
| Nodes.EntriesOf | ahocorasick.go:176-185 | A node's own entry comes first in its entries. |
| Nodes.CollectEntries | ahocorasick.go:176-185 | The loop with its recursive calls returns `EntriesOf(nodes, n)`. |
| Nodes.EntriesFromChain | ahocorasick.go:176-185 | Every reported entry is the entry of a node on the dictionary suffix chain. |
| Nodes.EntriesComplete | ahocorasick.go:176-185 | The entry of every node on the dictionary suffix chain is reported. |
| Nodes.DuplicateEntries | ahocorasick.go:181-183 | On a dictionary chain of two links, the second link's entry is reported at least twice. |
| Matcher.Next | ahocorasick.go:124-127 | One transition reaches a node that spells a suffix of the previous node's string followed by the rune. |
| Matcher.StateSuffix | ahocorasick.go:123-127 | After reading a text, the automaton's node spells a suffix of that text. |
| Matcher.Add | ahocorasick.go:129-132 | Recording offset `o` for word `k` adds key `k`. Its list becomes the old list, or the empty list when `k` was absent, followed by `o`. Every other key's list is unchanged. |
| Matcher.RecordEntries | ahocorasick.go:128-133 | The loop over the entries yields `Record(m0, es, end)`. |
| Matcher.MatchesStep | ahocorasick.go:123-133 | Reading one more rune takes one transition and records the new node's entries at the rune's end offset. |
| Matcher.Search | ahocorasick.go:117-136 | Search returns `SearchSpec(t, text)`. The result is nil exactly when there is no root or the text is empty. |
| SearchFacts.AddSound | ahocorasick.go:129-132 | Appending a real occurrence that ends at the current offset keeps every list non-empty, non-decreasing and sound. |
| SearchFacts.RecordSound | ahocorasick.go:128-133 | Recording entries that all end at the current offset keeps the report sound. |
| SearchFacts.EntryOccurs | ahocorasick.go:128-132 | Every entry reported after reading s is a word that occurs in s and ends at s's byte length. |
| SearchFacts.MatchesSound | ahocorasick.go:123-134 | After any prefix of the text, every key is a word index, every list is non-empty and non-decreasing, and every offset starts an occurrence of the word. |
| SearchFacts.BuiltValid | ahocorasick.go:7-108 | New builds a tree Search accepts, whose entries name words spelt by their nodes, with byte lengths. |
| SearchFacts.SearchSound | ahocorasick.go:115-136 | On a tree New built, every reported key is a word index and its list is non-empty and non-decreasing. Every offset is a byte offset at which the word occurs in the text. |
| SearchFacts.SearchSoundBytes | ahocorasick.go:132 | Each reported offset `o` of word `k` satisfies `Encode(text)[o .. o + len(word)] == Encode(word)`. |
| Text.RuneLen | ahocorasick.go:48 | A rune's UTF-8 width is between 1 and 4 bytes. |
| Text.EncodeLen | ahocorasick.go:37 | `len` of a string is the length of its UTF-8 encoding. |
| Text.OccursInBytes | ahocorasick.go:132 | An occurrence at a byte offset is the word's encoding at that offset of the text's encoding. |
| Scenarios.BuiltAb | ahocorasick.go:7-108 | For `["ab"]`, New builds three nodes. Node "ab" has no suffix link, because pass 2 finds no child for 'b' below the root. |
| Scenarios.SearchAbab | ahocorasick.go:117-136 | Search with `["ab"]` over `"abab"` reports `{0: [0]}` only. |
| Scenarios.BuiltAbc | ahocorasick.go:7-108 | For `["abc", "c"]`, node "ab" gets no suffix link because the root has no child 'b'. Node "abc" then gets none because its parent has none, although node "c" exists. |
| Scenarios.SearchAbcMissesC | ahocorasick.go:117-136 | Search with `["abc", "c"]` over `"abc"` reports `{0: [0]}`, although `"c"` occurs at byte offset 2. |
| Scenarios.BuiltEmptyWord | ahocorasick.go:35-62 | For `[""]`, New builds a root with no children and no entry. |
| Scenarios.RootOnlyMatches | ahocorasick.go:123-134 | On a lone root, every text leaves the report empty. |
| Scenarios.SearchEmptyWord | ahocorasick.go:117-136 | With `[""]`, Search over any non-empty text returns an empty map, not nil. |
| Scenarios.BuiltAaa | ahocorasick.go:7-108 | For `["a", "aa", "aaa"]`, New builds a chain of three nodes, each with a suffix link to the node above it. "aa" and "aaa" also have dictionary suffix links to the node above them. |
| Scenarios.SearchAaa | ahocorasick.go:117-136 | Search with `["a", "aa", "aaa"]` over `"aaa"` reports `{0: [0, 1, 2, 2], 1: [0, 1], 2: [0]}`. |

## Left out

- Invalid UTF-8 is not modelled. Texts and words are sequences of Unicode scalar values. Go's `range` turns each invalid byte into U+FFFD of width 1, while `utf8.RuneLen` gives that rune 3, and neither behaviour is captured.
- Go's `int` is 64 bits wide. Indices, byte lengths and offsets are unbounded here; overflow needs texts of more than 2^63 bytes.
- Pointers are arena indices. The source updates shared node objects in place; the model writes a new arena value in which the index stands for the node's identity. Aliasing beyond that is not modelled.
- Go distinguishes a nil `children` map from an empty one, and the model does not; both read the same in the source.
- The level sets are computed in pass 1, as in the source. The model does not capture the lazy `make` of each level set.
- Search is proved sound but not complete, because the source misses occurrences (see `Scenarios.SearchAbab`). No completeness lemma is stated.
- Matcher.Search: requires a tree New built, or the zero tree. The type's only field is unexported, so no other tree reaches Search.
- The package's tests and benchmarks are not part of this model, beyond the concrete runs in `Scenarios`.
