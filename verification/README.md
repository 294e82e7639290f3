# The nginx core, modelled and proved

A Dafny model of the data structures and protocols in the core of nginx 1.25.0, with
proofs of what they promise: over every input, every run or every split, not on examples.

| file | what it models |
|---|---|
| HashTable, HashSize | the read-only hash: its byte layout in memory, the size search, building and looking up |
| Wildcard, DnsOrder | the tries for "*.example.com" and "www.example.*", and the order their keys are sorted in |
| HashKeys, ServerNames | collecting names with conflict checks, building the combined hash, and what a lookup then answers |
| ConfToken, ConfWords | the configuration tokenizer with its 4096-byte buffer, and lines of words written out and read back |
| Inet6 | the printer and the parser of IPv6 addresses |
| Md5, Md5Vectors, Crc32 | streaming digests and checksums, with the published values of two messages |
| ConnectionPool | the free list, the reusable queue and the file table of a worker, over any run with nested handlers |
| Reload, SharedZones | what a reload does with listening sockets and shared memory, on success and on failure |
| BufChain | chains of buffers: sending, recycling, joining file ranges |
| LogList | the sorted list of logs and the delivery of a message |
| Handover | descriptors handed to a new binary |
| Bytes, Numbers, LinkedList | shared pieces |

Code that changes things in place is imperative here too: methods with loops on arrays,
and classes whose fields the methods update.  Each is proved against a function or a
predicate on values, and the lemmas are about those.  Pointers into arrays of records are
indices, with -1 for NULL.  What the environment decides is left open: the pool may return
any address, the kernel any free descriptor or a failure at any call, and an event handler
may do any finite sequence of operations on connections, asking for new ones included.

Some results are exact conditions for something that does not always hold.

- A wildcard lookup gives the longest accepted pattern exactly when keys that share labels
  are adjacent in the sorted list.  They are if no label has a byte up to the space
  character.  For every such byte there are three accepted names for which the lookup is
  wrong: "x.b.a" gets the server of ".a" although ".b.a" was accepted.
- A name is reported as conflicting exactly when it conflicts with an accepted one, except
  for two kinds of exact names: those that a refused ".name" left registered (StrayNameRun is
  such a run), and those with a NUL byte that share the slot, the length and the bytes before
  the NUL with another registered name (LookAlikeRun).  NUL bytes are possible only where
  wildcards are not asked for.
- Reading through the tokenizer's buffer gives what the whole file would give exactly when no
  pending span fills the buffer.  A comment line longer than the buffer fills it, and a file
  with one is refused.
- An IPv6 address survives printing and parsing unless it is one of two whose dotted tail is
  255.255.255.255.  The parser accepts more than section 2.2 of RFC 4291 allows, and refuses
  a final "::" that stands for one group only; ReadIffForm has the exact grammar.
- A reload treats every old shared zone correctly exactly when the zones both cycles have
  agree on the noreuse flag.

## Model

| member | source | states |
|---|---|---|
| HashTable.HashFind | nginx/b_正向代理服务/workdir/nginx-1.25.0/src/core/ngx_hash.c:12-49 | on a table whose walk for the name stays inside its memory, the element loop returns what walking the bucket byte by byte finds, or NULL |
| HashTable.SameName | nginx/b_正向代理服务/workdir/nginx-1.25.0/src/core/ngx_hash.c:29-39 | the byte loop answers whether the stored bytes are exactly the name |
| HashTable.WriterStepIsReaderStep | nginx/b_正向代理服务/workdir/nginx-1.25.0/src/core/ngx_hash.c:43-44 | from an aligned address the reader's step to the next element is the size the writer gave the element, for every name length |
| HashTable.WalkFindsFirstMatch | nginx/b_正向代理服务/workdir/nginx-1.25.0/src/core/ngx_hash.c:24-49 | reading a bucket that was laid out and terminated finds the first element of that name, for every list of elements |
| HashTable.FitsAt | nginx/b_正向代理服务/workdir/nginx-1.25.0/src/core/ngx_hash.c:307-330 | the 16-bit trial answers whether every bucket stays within the limit at that size |
| HashTable.ChooseSize | nginx/b_正向代理服务/workdir/nginx-1.25.0/src/core/ngx_hash.c:296-337 | the search returns the least size from its start on at which all buckets fit, or the greatest size |
| HashSize.NothingSmaller | nginx/b_正向代理服务/workdir/nginx-1.25.0/src/core/ngx_hash.c:296-301 | for keys none of which was removed, every size at which they fit is at least the start that is computed from their number |
| HashSize.SizeIsLeast | nginx/b_正向代理服务/workdir/nginx-1.25.0/src/core/ngx_hash.c:252-345 | then the size is the least one at which every bucket stays within the bucket size less a pointer, or the greatest allowed; where there are more than 10000 and fewer than 100 for each key, the least from a thousand below the greatest on |
| HashSize.RemovedKeysCount | nginx/b_正向代理服务/workdir/nginx-1.25.0/src/core/ngx_hash.c:299-300 | with a removed key a smaller size can be missed |
| HashSize.EltSizeIs | nginx/b_正向代理服务/workdir/nginx-1.25.0/src/core/ngx_hash.c:246-249 | an element has room for a pointer, a 16-bit length and the name, rounded up to eight bytes |
| HashTable.AlignStaysShort | nginx/b_正向代理服务/workdir/nginx-1.25.0/src/core/ngx_hash.c:360-379 | a load that passed the 16-bit test still fits 16 bits after rounding up to a cache line |
| HashTable.Measure | nginx/b_正向代理服务/workdir/nginx-1.25.0/src/core/ngx_hash.c:348-370 | the exact loads are the sums of the element sizes, and it fails exactly when one of them passes the limit |
| HashTable.RoundUp | nginx/b_正向代理服务/workdir/nginx-1.25.0/src/core/ngx_hash.c:372-382 | each used bucket's room holds its load, is aligned and still fits 16 bits, and the total is the sum of the rooms |
| HashTable.OffsetsApart | nginx/b_正向代理服务/workdir/nginx-1.25.0/src/core/ngx_hash.c:411-418 | the rooms of different buckets do not overlap |
| HashTable.Place | nginx/b_正向代理服务/workdir/nginx-1.25.0/src/core/ngx_hash.c:411-418 | each used bucket gets its room's address, each unused one none |
| HashTable.StoreElt | nginx/b_正向代理服务/workdir/nginx-1.25.0/src/core/ngx_hash.c:429-435 | after the three stores the memory holds the value, the 16-bit length and the lower-cased name there, and is unchanged elsewhere |
| HashTable.Fill | nginx/b_正向代理服务/workdir/nginx-1.25.0/src/core/ngx_hash.c:424-438 | every bucket holds its elements in order, none written over another's room |
| HashTable.Terminate | nginx/b_正向代理服务/workdir/nginx-1.25.0/src/core/ngx_hash.c:440-448 | every used bucket ends with a NULL value inside its room |
| HashTable.LayOut | nginx/b_正向代理服务/workdir/nginx-1.25.0/src/core/ngx_hash.c:372-418 | each used bucket gets an aligned room for its whole load inside the allocated block, and the rooms' addresses are the buckets' addresses, wherever the pool puts the block |
| HashTable.Build | nginx/b_正向代理服务/workdir/nginx-1.25.0/src/core/ngx_hash.c:372-453 | the memory it returns answers every name in every bucket with the first element of that name |
| HashTable.HashInit | nginx/b_正向代理服务/workdir/nginx-1.25.0/src/core/ngx_hash.c:252-486 | it fails exactly when the size or bucket limits cannot be met, with the 64-bit wrap-around of small bucket sizes; otherwise the table has the size searched for and represents the keys, wherever the pool puts the memory |
| HashTable.HashFindsFirst | nginx/b_正向代理服务/workdir/nginx-1.25.0/src/core/ngx_hash.c:12-49 | a table built from any keys, repeated ones too, gives every name the value of its first key, and all other names NULL |
| HashTable.HashAgreesWithMap | nginx/b_正向代理服务/workdir/nginx-1.25.0/src/core/ngx_hash.c:12-49 | a table built from distinct keys gives every key its value and every other name NULL: the byte-level table agrees with a map |
| Wildcard.ComputeKey | nginx/b_正向代理服务/workdir/nginx-1.25.0/src/core/ngx_hash.c:634-646 | the loop computes the hash of the name |
| Wildcard.BestIsLongestMatch | nginx/b_正向代理服务/workdir/nginx-1.25.0/src/core/ngx_hash.c:89-97 | the reference answer is a matching key with the longest path, and there is none exactly when nothing matches |
| Wildcard.FindWcHead | nginx/b_正向代理服务/workdir/nginx-1.25.0/src/core/ngx_hash.c:52-143 | the recursive search on tagged values is the search of the trie with the labels of the name from last to first |
| Wildcard.FindWcTail | nginx/b_正向代理服务/workdir/nginx-1.25.0/src/core/ngx_hash.c:146-207 | the same with the labels from first to last, where something must follow the match |
| Wildcard.BackLabelsReverse | nginx/b_正向代理服务/workdir/nginx-1.25.0/src/core/ngx_hash.c:62-78 | cutting labels off the end of a name gives its labels in reverse |
| Wildcard.LostRun | nginx/b_正向代理服务/workdir/nginx-1.25.0/src/core/ngx_hash.c:514-528 | keys of a label that was met before, after keys of another one, cannot be found |
| Wildcard.KeptRun | nginx/b_正向代理服务/workdir/nginx-1.25.0/src/core/ngx_hash.c:514-620 | of each label exactly the first run of keys can be found, at every level |
| Wildcard.TakeGroup | nginx/b_正向代理服务/workdir/nginx-1.25.0/src/core/ngx_hash.c:570-596 | the inner loop takes exactly the keys that share the first label, without it |
| Wildcard.CollectGroup | nginx/b_正向代理服务/workdir/nginx-1.25.0/src/core/ngx_hash.c:521-596 | the group of a key is the whole run of keys with its first label, and the next level gets those that go on |
| Wildcard.BuildGroup | nginx/b_正向代理服务/workdir/nginx-1.25.0/src/core/ngx_hash.c:598-620 | the tagged value answers for the whole group: longest match, with the key that ends here as fallback |
| Wildcard.WildcardInit | nginx/b_正向代理服务/workdir/nginx-1.25.0/src/core/ngx_hash.c:489-631 | the trie answers every name with the longest match among the keys that can be found, in head and in tail mode; it fails exactly when the table of some level cannot be built |
| DnsOrder.DnsSortedIsAscending | nginx/b_正向代理服务/workdir/nginx-1.25.0/src/core/ngx_string.c:895-923 | in every list in which no key compares greater than the next one, no path comes right after itself or one of its extensions, whatever bytes the labels have |
| DnsOrder.PrintableIsPairwise | nginx/b_正向代理服务/workdir/nginx-1.25.0/src/core/ngx_string.c:895-923 | without bytes up to the space, no key of such a list compares greater than any later one |
| DnsOrder.TiesAreNotTransitive | nginx/b_正向代理服务/workdir/nginx-1.25.0/src/core/ngx_string.c:916-921 | with a space one can: "a.b.c", "a b", "a.b" |
| DnsOrder.PrintableIsContiguous | nginx/b_正向代理服务/workdir/nginx-1.25.0/src/core/ngx_string.c:895-923 | keys that share labels are adjacent in a sorted list, so all can be found, if no label has a byte up to the space |
| DnsOrder.UnderConvex | nginx/b_正向代理服务/workdir/nginx-1.25.0/src/core/ngx_string.c:895-923 | a key between two keys below one path is below it too, if no label has a byte up to the space |
| DnsOrder.LowByteLosesKey | nginx/b_正向代理服务/workdir/nginx-1.25.0/src/core/ngx_string.c:916-921 | for every byte up to the space there is a sorted list of three keys of which the last cannot be found |
| HashKeys.Classify | nginx/b_正向代理服务/workdir/nginx-1.25.0/src/core/ngx_hash.c:748-798 | the loop gives the kind of the key: refused, exact, or which wildcard; the next four rows say what that is in terms of the string |
| HashKeys.DotReads | nginx/b_正向代理服务/workdir/nginx-1.25.0/src/core/ngx_hash.c:776-779 | every sound ".S" with S not empty is the head wildcard of S in lower case, S itself included |
| HashKeys.StarDotReads | nginx/b_正向代理服务/workdir/nginx-1.25.0/src/core/ngx_hash.c:783-786 | every sound "*.S" is the head wildcard of S in lower case, S not included |
| HashKeys.TailReads | nginx/b_正向代理服务/workdir/nginx-1.25.0/src/core/ngx_hash.c:788-792 | every sound "P.*" that does not start with a dot is the tail wildcard of P in lower case |
| HashKeys.OtherReads | nginx/b_正向代理服务/workdir/nginx-1.25.0/src/core/ngx_hash.c:748-800 | a sound key with no star that is not ".S" is an exact name, as is every key where wildcards are not asked for; a key is declined exactly when it is not sound (a NUL byte, two stars or two dots in a row), or has a star and none of the three forms |
| Bytes.ToLowerIs | nginx/b_正向代理服务/workdir/nginx-1.25.0/src/core/ngx_string.h:47-47 | the letters 65 to 90 get 32 added, no other byte changes |
| HashKeys.ReverseKey | nginx/b_正向代理服务/workdir/nginx-1.25.0/src/core/ngx_hash.c:914-939 | the reversing loop writes the labels from last to first, with a final dot for "*." |
| HashKeys.ClashIsMembership | nginx/b_正向代理服务/workdir/nginx-1.25.0/src/core/ngx_hash.c:815-826 | without NUL bytes the length and strncmp test finds exactly the registered name |
| HashKeys.ClashIsLooksTaken | nginx/b_正向代理服务/workdir/nginx-1.25.0/src/core/ngx_hash.c:815-826 | with NUL bytes too: the test finds exactly a registered name of the same slot, length and C string |
| HashKeys.Enter | nginx/b_正向代理服务/workdir/nginx-1.25.0/src/core/ngx_hash.c:813-842 | a name is reported taken exactly when it is registered in its slot, as a C string where NUL bytes may occur; otherwise it is entered and nothing else changes |
| HashKeys.AddExact | nginx/b_正向代理服务/workdir/nginx-1.25.0/src/core/ngx_hash.c:800-853 | an exact name, with or without NUL bytes, is refused exactly when it conflicts or looks like a registered one; otherwise arrays and registers gain it |
| HashKeys.AddHead | nginx/b_正向代理服务/workdir/nginx-1.25.0/src/core/ngx_hash.c:856-942 | the same for ".S" and "*.S", with what a refused ".S" leaves behind |
| HashKeys.AddTail | nginx/b_正向代理服务/workdir/nginx-1.25.0/src/core/ngx_hash.c:944-1012 | the same for "P.*" |
| HashKeys.AddKey | nginx/b_正向代理服务/workdir/nginx-1.25.0/src/core/ngx_hash.c:737-1013 | every key is declined, busy or accepted as the pattern it reads as, busy exactly when the tests report it; arrays and registers stay consistent with the accepted patterns, and the caller's string is left in lower case unless it is declined or a read-only exact name |
| HashKeys.ReportedIsConflict | nginx/b_正向代理服务/workdir/nginx-1.25.0/src/core/ngx_hash.c:813-826 | what the tests report is a conflict, for every pattern without NUL bytes in an exact name |
| HashKeys.KeysArrays.constructor | nginx/b_正向代理服务/workdir/nginx-1.25.0/src/core/ngx_hash.c:682-734 | the empty arrays are consistent |
| HashKeys.KeysArrays.Add | nginx/b_正向代理服务/workdir/nginx-1.25.0/src/core/ngx_hash.c:737-1013 | over any run of additions the arrays hold exactly the accepted patterns, and the names that refused ".S" left behind are known |
| HashKeys.ReportedExactly | nginx/b_正向代理服务/workdir/nginx-1.25.0/src/core/ngx_hash.c:813-826 | a key is busy exactly when it conflicts with an accepted pattern, or is an exact name that a refused ".S" left registered, or is an exact name with a NUL byte that another registered name of its slot and length equals up to the NUL |
| HashKeys.StrayNameRun | nginx/b_正向代理服务/workdir/nginx-1.25.0/src/core/ngx_hash.c:864-904 | the exception occurs: "*.a", then ".a" busy, then "a" busy though it conflicts with nothing accepted |
| HashKeys.LookAlikeRun | nginx/b_正向代理服务/workdir/nginx-1.25.0/src/core/ngx_hash.c:800-853 | the last case occurs for every two keys without wildcards that look alike: the second is busy though it conflicts with nothing accepted |
| HashKeys.LargeLookAlike | nginx/b_正向代理服务/workdir/nginx-1.25.0/src/core/ngx_hash.c:687-694 | there are such keys for the large number of slots |
| ServerNames.HeadKeyMatches | nginx/b_正向代理服务/workdir/nginx-1.25.0/src/core/ngx_hash.c:907-939 | a reversed head key matches the labels of a name exactly when the pattern matches the name as a string |
| ServerNames.TailKeyMatches | nginx/b_正向代理服务/workdir/nginx-1.25.0/src/core/ngx_hash.c:944-959 | a tail key matches the labels of a name exactly when the name starts with it and a dot |
| ServerNames.HeadBestIsAnswer | nginx/b_正向代理服务/workdir/nginx-1.25.0/src/core/ngx_hash.c:52-143 | the trie's best key is the head pattern with the longest suffix that matches the name |
| ServerNames.TailBestIsAnswer | nginx/b_正向代理服务/workdir/nginx-1.25.0/src/core/ngx_hash.c:146-207 | the trie's best key is the tail pattern with the longest prefix that matches the name |
| ServerNames.ExactFindIsAnswer | nginx/b_正向代理服务/workdir/nginx-1.25.0/src/core/ngx_hash.c:12-49 | the exact table answers with the pattern that is the name, and only with it |
| ServerNames.FindCombined | nginx/b_正向代理服务/workdir/nginx-1.25.0/src/core/ngx_hash.c:210-245 | exact part, then head part, then tail part; an empty name stops after the exact part |
| ServerNames.BuildExact | nginx/b_正向代理服务/workdir/nginx-1.25.0/src/http/ngx_http.c:1606-1613 | the exact part answers every name as the accepted exact patterns say, and fails exactly when its table cannot be built |
| ServerNames.BuildHead | nginx/b_正向代理服务/workdir/nginx-1.25.0/src/http/ngx_http.c:1615-1631 | from the keys in any order in which none compares greater than the next, the head part answers every name with the longest head pattern among those served; it fails exactly when a level of the trie cannot be built |
| ServerNames.BuildTail | nginx/b_正向代理服务/workdir/nginx-1.25.0/src/http/ngx_http.c:1633-1649 | the same for the tail part |
| ServerNames.BuildCombined | nginx/b_正向代理服务/workdir/nginx-1.25.0/src/http/ngx_http.c:1600-1649 | all three parts serve the patterns whose keys can be found, for any bytes in them; failure exactly when one part cannot be built |
| ServerNames.PrintableAllServed | nginx/b_正向代理服务/workdir/nginx-1.25.0/src/http/ngx_http.c:1615-1649 | every accepted pattern is served if no stem has a byte up to the space |
| ServerNames.ServesIffContiguous | nginx/b_正向代理服务/workdir/nginx-1.25.0/src/http/ngx_http.c:1615-1649 | lookups are as the accepted patterns promise exactly when keys that share labels are adjacent in the sorted lists, for patterns with different values |
| ServerNames.FindServer | nginx/b_正向代理服务/workdir/nginx-1.25.0/src/core/ngx_hash.c:210-245 | for every name: the exact pattern, else the longest head wildcard, else the longest tail wildcard, else NULL |
| ServerNames.AddName | nginx/b_正向代理服务/workdir/nginx-1.25.0/src/http/ngx_http.c:1578-1596 | a name that cannot be read is an error; otherwise the arrays stand for the names accepted so far and this one, unless it conflicts |
| ServerNames.CollectNames | nginx/b_正向代理服务/workdir/nginx-1.25.0/src/http/ngx_http.c:1563-1598 | succeeds exactly when every name can be read; then the arrays hold the patterns accepted in order |
| ServerNames.BuildServerNames | nginx/b_正向代理服务/workdir/nginx-1.25.0/src/http/ngx_http.c:1559-1649 | from any list of names, with the sort: an error exactly when a name cannot be read or a part cannot be built, else the hash serves the accepted names whose keys can be found |
| ServerNames.ServerFor | nginx/b_正向代理服务/workdir/nginx-1.25.0/src/http/ngx_http.c:1559-1649 | from any list of names to the answer for any name: exact, else longest head wildcard, else longest tail wildcard, among all accepted names if their keys are adjacent or without low bytes |
| ServerNames.LowByteAccepted | nginx/b_正向代理服务/workdir/nginx-1.25.0/src/http/ngx_http.c:1578-1596 | the names ".a", ".a" with one more byte up to the space, and ".b.a" are all accepted |
| ServerNames.LowByteLookup | nginx/b_正向代理服务/workdir/nginx-1.25.0/src/core/ngx_hash.c:514-620 | then every hash that is built gives "x.b.a" the value of ".a" and not of ".b.a" |
| ConfToken.CopyWord | nginx/b_正向代理服务/workdir/nginx-1.25.0/src/core/ngx_conf_file.c:771-803 | the copying loop writes the unescaped word, and a NUL, within the memory allocated for it |
| ConfToken.MoveDown | nginx/b_正向代理服务/workdir/nginx-1.25.0/src/core/ngx_conf_file.c:579-581 | the pending bytes arrive at the front of the buffer unchanged |
| ConfToken.FillBuffer | nginx/b_正向代理服务/workdir/nginx-1.25.0/src/core/ngx_conf_file.c:555-606 | after a refill the buffer is the file from the pending word on |
| ConfToken.Consume | nginx/b_正向代理服务/workdir/nginx-1.25.0/src/core/ngx_conf_file.c:613-814 | one turn of the loop on the buffer does to its variables what the step of the reference reader does at that place of the file |
| ConfToken.ConfFile.constructor | nginx/b_正向代理服务/workdir/nginx-1.25.0/src/core/ngx_conf_file.c:514-529 | a file opened for reading, with nothing read |
| ConfToken.ConfFile.Refill | nginx/b_正向代理服务/workdir/nginx-1.25.0/src/core/ngx_conf_file.c:555-611 | the position in the file stays, the buffer holds it again, and the dump is the file read so far |
| ConfToken.ConfFile.ReadToken | nginx/b_正向代理服务/workdir/nginx-1.25.0/src/core/ngx_conf_file.c:502-817 | the words, return code, line and place are those of reading through a buffer of 4096 bytes, and the buffer stays a window on the file; what a token is, is said by the rows from BufferedIsWhole on |
| ConfToken.BufferedIsWhole | nginx/b_正向代理服务/workdir/nginx-1.25.0/src/core/ngx_conf_file.c:531-817 | reading through the buffer gives the token of the whole file exactly when no pending span fills the buffer before a character of the file; else it is the error for that |
| ConfToken.WholeNeverTooLong | nginx/b_正向代理服务/workdir/nginx-1.25.0/src/core/ngx_conf_file.c:555-577 | that error has no other cause |
| ConfToken.RunsAgree | nginx/b_正向代理服务/workdir/nginx-1.25.0/src/core/ngx_conf_file.c:502-817 | any number of successive calls give the tokens of the whole file exactly when no pending span fills the buffer in any call of the whole-file run |
| ConfToken.LongCommentRefused | nginx/b_正向代理服务/workdir/nginx-1.25.0/src/core/ngx_conf_file.c:555-577 | a file of one comment line is read as an empty file exactly when the line fits the buffer, and is refused otherwise |
| ConfToken.QuotedWordLeads | nginx/b_正向代理服务/workdir/nginx-1.25.0/src/core/ngx_conf_file.c:701-751 | a word in quotes is read up to its closing quote and unescaped |
| ConfToken.BareWordLeads | nginx/b_正向代理服务/workdir/nginx-1.25.0/src/core/ngx_conf_file.c:713-758 | a bare word, with its escapes and variables, is read up to its last character |
| ConfToken.GapLeads | nginx/b_正向代理服务/workdir/nginx-1.25.0/src/core/ngx_conf_file.c:615-625 | blank space and comments are skipped, with the lines counted |
| ConfToken.DirectiveIsRead | nginx/b_正向代理服务/workdir/nginx-1.25.0/src/core/ngx_conf_file.c:531-817 | every directive of the grammar, after any blank space and comments, is read: words, terminator, line and place; a word may follow a closing quote at once if it starts with ")" |
| ConfToken.DirectiveIffRead | nginx/b_正向代理服务/workdir/nginx-1.25.0/src/core/ngx_conf_file.c:531-817 | a call gives a directive exactly where one of the grammar stands: nothing else is taken for one |
| ConfToken.DoneIffRead | nginx/b_正向代理服务/workdir/nginx-1.25.0/src/core/ngx_conf_file.c:531-817 | it gives the end of the file exactly when only blank space and comments are left, and the end of a block exactly when a closing brace comes after them; each with no words, the place right after it and the newlines before it counted |
| ConfToken.ErrorPlace | nginx/b_正向代理服务/workdir/nginx-1.25.0/src/core/ngx_conf_file.c:555-625 | an error stops at the end of the file, or right after the character it names |
| ConfWords.LineIsRead | nginx/b_正向代理服务/workdir/nginx-1.25.0/src/core/ngx_conf_file.c:615-803 | every line of words, bare or in quotes, with runs of the bytes 32, 9, 13 and 10 before, between and after them and ended by 59 or 123, is read back: exactly these words, the code for that end, the place after it, and one more line for every 10 |
| ConfWords.EscapesAre | nginx/b_正向代理服务/workdir/nginx-1.25.0/src/core/ngx_conf_file.c:775-801 | which byte each escape stands for, and that all other backslashes are kept |
| ConfToken.QuoteRoundTrip | nginx/b_正向代理服务/workdir/nginx-1.25.0/src/core/ngx_conf_file.c:696-803 | any non-empty list of byte strings, quoted and escaped, is read back as that list |
| ConfToken.QuoteRoundTripBuffered | nginx/b_正向代理服务/workdir/nginx-1.25.0/src/core/ngx_conf_file.c:531-817 | the same through the buffer, wherever it was filled up to, exactly when each word fits it with its escapes, its quote and the two characters after it, the last one with its terminator only |
| Numbers.DigitsFitTemp | nginx/b_正向代理服务/workdir/nginx-1.25.0/src/core/ngx_string.c:488-493 | the numeral of a 64-bit number fits the 20 bytes of the temporary array |
| Numbers.DigitsAre | nginx/b_正向代理服务/workdir/nginx-1.25.0/src/core/ngx_string.c:484-568 | the numerals have the ASCII digits, and the letters a to f |
| Numbers.MakeDigits | nginx/b_正向代理服务/workdir/nginx-1.25.0/src/core/ngx_string.c:501-546 | the loops leave the decimal or hexadecimal numeral, in either case, without leading zeros at the end of that array |
| Numbers.PrintNumber | nginx/b_正向代理服务/workdir/nginx-1.25.0/src/core/ngx_string.c:484-568 | what is written is the numeral padded to the width with blanks or zeros, cut at the room there is |
| Inet6.LoopIsInet | nginx/b_正向代理服务/workdir/nginx-1.25.0/src/core/ngx_inet.c:19-59 | the loop on any text gives the four numbers between its three dots, each of digits only, perhaps none, and at most 255, or INADDR_NONE |
| Inet6.InetAddr | nginx/b_正向代理服务/workdir/nginx-1.25.0/src/core/ngx_inet.c:19-59 | so does the method, on every text |
| Inet6.DottedIsRead | nginx/b_正向代理服务/workdir/nginx-1.25.0/src/core/ngx_inet.c:19-59 | every address in dots as it is printed is read as its four bytes, without wrap-around |
| Inet6.Inet6Addr | nginx/b_正向代理服务/workdir/nginx-1.25.0/src/core/ngx_inet.c:64-177 | it succeeds exactly when the reference parser does, and then the 16 bytes are the address; all writes stay within 16 bytes, on every text |
| Inet6.OpenGap | nginx/b_正向代理服务/workdir/nginx-1.25.0/src/core/ngx_inet.c:158-167 | the in-place shift leaves the bytes before "::", zeros, and the bytes after it |
| Inet6.FormIsRead | nginx/b_正向代理服务/workdir/nginx-1.25.0/src/core/ngx_inet.c:64-177 | every text of the grammar, with any number of groups, is read as its groups or refused; accepted exactly when the groups fill the address or "::" stands for one more at least, and the tail is not 255.255.255.255 |
| Inet6.ReadIffForm | nginx/b_正向代理服务/workdir/nginx-1.25.0/src/core/ngx_inet.c:64-177 | the parser accepts exactly the texts of accepted forms: besides those of section 2.2 of RFC 4291 those with one leading colon, with a final colon after "::", and with empty or zero-padded numbers in dots |
| Inet6.HexDigitIs | nginx/b_正向代理服务/workdir/nginx-1.25.0/src/core/ngx_inet.c:131-146 | the digits, and the letters of either case, have their values; no other byte is a digit |
| Inet6.FindRun | nginx/b_正向代理服务/workdir/nginx-1.25.0/src/core/ngx_inet.c:306-332 | the loop finds the first of the longest runs of two or more zero groups |
| Inet6.BestRunUnique | nginx/b_正向代理服务/workdir/nginx-1.25.0/src/core/ngx_inet.c:306-332 | there is only one such run |
| Inet6.LongestIsBest | nginx/b_正向代理服务/workdir/nginx-1.25.0/src/core/ngx_inet.c:306-332 | the recursive definition of the run is first among the longest |
| Inet6.PrintAll | nginx/b_正向代理服务/workdir/nginx-1.25.0/src/core/ngx_inet.c:334-368 | the printing loop writes the text of the form, within 45 bytes |
| Inet6.PrintFits | nginx/b_正向代理服务/workdir/nginx-1.25.0/src/core/ngx_inet.c:302-368 | the text never exceeds NGX_INET6_ADDRSTRLEN |
| Inet6.PrintIsForm | nginx/b_正向代理服务/workdir/nginx-1.25.0/src/core/ngx_inet.c:334-368 | what is printed is one of the forms, for every address |
| Inet6.DotsArePrinted | nginx/b_正向代理服务/workdir/nginx-1.25.0/src/core/ngx_inet.c:337-344 | a dotted tail is printed exactly when the first ten bytes are zero and either ff ff follows, or two zeros and then two bytes not both zero, or four zeros, a byte that is not 0 and one that is not 1 |
| Inet6.Inet6Ntop | nginx/b_正向代理服务/workdir/nginx-1.25.0/src/core/ngx_inet.c:295-369 | nothing is written without 45 bytes of room; otherwise the text of the address, whose form is given by PrintIsForm and DotsArePrinted |
| Inet6.RoundTrip | nginx/b_正向代理服务/workdir/nginx-1.25.0/src/core/ngx_inet.c:64-369 | the text printed for an address is parsed back to it, for every address but ::255.255.255.255 and ::ffff:255.255.255.255, which are refused |
| Inet6.BytesOfWords | nginx/b_正向代理服务/workdir/nginx-1.25.0/src/core/ngx_inet.c:155-156 | the bytes written for the groups of an address are the address |
| Md5.MacroIsAuxiliary | nginx/b_正向代理服务/workdir/nginx-1.25.0/src/core/ngx_md5.c:122-125 | the optimised F and G equal their RFC 1321 definitions, for all words |
| Md5.Step | nginx/b_正向代理服务/workdir/nginx-1.25.0/src/core/ngx_md5.c:131-134 | the macro is the RFC operation a = b + ((a + f + X[k] + T[i]) <<< s) |
| Md5.Round1 | nginx/b_正向代理服务/workdir/nginx-1.25.0/src/core/ngx_md5.c:192-209 | sixteen written-out steps are steps 1 to 16 of the RFC's scheme |
| Md5.Round2 | nginx/b_正向代理服务/workdir/nginx-1.25.0/src/core/ngx_md5.c:211-228 | steps 17 to 32, with word order 1 + 5i |
| Md5.Round3 | nginx/b_正向代理服务/workdir/nginx-1.25.0/src/core/ngx_md5.c:230-247 | steps 33 to 48, with word order 5 + 3i |
| Md5.Round4 | nginx/b_正向代理服务/workdir/nginx-1.25.0/src/core/ngx_md5.c:249-266 | steps 49 to 64, with word order 7i |
| Md5.CompressBlock | nginx/b_正向代理服务/workdir/nginx-1.25.0/src/core/ngx_md5.c:186-275 | one turn of the loop is the RFC transformation of one block |
| Md5.BlocksConcat | nginx/b_正向代理服务/workdir/nginx-1.25.0/src/core/ngx_md5.c:186-275 | whole blocks can be processed in parts |
| Md5.PadLenIsLeast | nginx/b_正向代理服务/workdir/nginx-1.25.0/src/core/ngx_md5.c:66-79 | the padding is the least that makes the length congruent to 56 modulo 64 |
| Md5.Context.constructor | nginx/b_正向代理服务/workdir/nginx-1.25.0/src/core/ngx_md5.c:18-27 | the initial words and an empty message |
| Md5.Context.Body | nginx/b_正向代理服务/workdir/nginx-1.25.0/src/core/ngx_md5.c:169-283 | the words after all blocks of the data |
| Md5.Context.Update | nginx/b_正向代理服务/workdir/nginx-1.25.0/src/core/ngx_md5.c:30-58 | the context stands for the message so far followed by the data, with the 64-bit byte counter wrapping |
| Md5.Context.Pad | nginx/b_正向代理服务/workdir/nginx-1.25.0/src/core/ngx_md5.c:66-91 | both padding cases: the words are those of the message with its padding |
| Md5.Context.Final | nginx/b_正向代理服务/workdir/nginx-1.25.0/src/core/ngx_md5.c:61-111 | the result is the digest of everything given to Update, and the context is cleared |
| Md5.Hash | nginx/b_正向代理服务/workdir/nginx-1.25.0/src/core/ngx_md5.c:18-111 | init, any sequence of updates, final: the digest of the concatenation, for every way of splitting |
| Md5Vectors.OutputWords | nginx/b_正向代理服务/workdir/nginx-1.25.0/src/core/ngx_md5.c:93-108 | the four words of the digest come out in order, low-order byte first |
| Md5Vectors.LengthIsWritten | nginx/b_正向代理服务/workdir/nginx-1.25.0/src/core/ngx_md5.c:64-91 | the last eight octets of the padding are the digits in base 256, low-order first, of the length in bits modulo 2^64 |
| Md5Vectors.DigestOfNothing | nginx/b_正向代理服务/workdir/nginx-1.25.0/src/core/ngx_md5.c:18-283 | the digest of the empty message is the one in section A.5 of RFC 1321, byte by byte |
| Md5Vectors.DigestOfLetterA | nginx/b_正向代理服务/workdir/nginx-1.25.0/src/core/ngx_md5.c:18-283 | so is the digest of "a" |
| Crc32.Entry16 | nginx/b_正向代理服务/workdir/nginx-1.25.0/src/core/ngx_crc32.c:26-31 | every entry of the small table is the division of its index by four bits |
| Crc32.Entry256 | nginx/b_正向代理服务/workdir/nginx-1.25.0/src/core/ngx_crc32.c:34-99 | every entry of the large table is the division of its index by eight bits |
| Crc32.Linear8 | nginx/b_正向代理服务/workdir/nginx-1.25.0/src/core/ngx_crc32.h:45-47 | the bit-by-bit division is linear over exclusive or |
| Crc32.ByteStepIsBits | nginx/b_正向代理服务/workdir/nginx-1.25.0/src/core/ngx_crc32.h:46-46 | one byte-table step is eight bits of the division by the reflected polynomial, for every register and byte |
| Crc32.NibblesAreByte | nginx/b_正向代理服务/workdir/nginx-1.25.0/src/core/ngx_crc32.h:30-31 | the two nibble-table steps are the same eight bits |
| Crc32.DivideConcat | nginx/b_正向代理服务/workdir/nginx-1.25.0/src/core/ngx_crc32.h:57-69 | the register after two strings is that after their concatenation |
| Crc32.Short | nginx/b_正向代理服务/workdir/nginx-1.25.0/src/core/ngx_crc32.h:20-35 | the nibble-table form computes the checksum |
| Crc32.Long | nginx/b_正向代理服务/workdir/nginx-1.25.0/src/core/ngx_crc32.h:38-50 | the byte-table form computes the checksum |
| Crc32.Update | nginx/b_正向代理服务/workdir/nginx-1.25.0/src/core/ngx_crc32.h:57-69 | the register moves on by the data |
| Crc32.Incremental | nginx/b_正向代理服务/workdir/nginx-1.25.0/src/core/ngx_crc32.h:53-73 | init, any sequence of updates, final: the checksum of the concatenation |
| Crc32.CheckValue | nginx/b_正向代理服务/workdir/nginx-1.25.0/src/core/ngx_crc32.h:53-73 | the checksum of "123456789" is cbf43926, the check value of this polynomial |
| ConnectionPool.RemoveLinks | nginx/b_正向代理服务/workdir/nginx-1.25.0/src/core/ngx_queue.h:72-84 | removing an element relinks the ring to the queue without it, and no other order changes |
| ConnectionPool.InsertLinks | nginx/b_正向代理服务/workdir/nginx-1.25.0/src/core/ngx_queue.h:33-37 | inserting at the head relinks the ring to the queue with it in front |
| ConnectionPool.PopFree | nginx/b_正向代理服务/workdir/nginx-1.25.0/src/core/ngx_connection.c:1203-1204 | taking the first free connection keeps the free list acyclic, counted and equal to the connections without a file |
| ConnectionPool.PushFree | nginx/b_正向代理服务/workdir/nginx-1.25.0/src/core/ngx_connection.c:1243-1245 | putting one back keeps the same |
| ConnectionPool.NextUse | nginx/b_正向代理服务/workdir/nginx-1.25.0/src/core/ngx_connection.c:1210-1226 | the next use of a slot has the opposite instance bit, so all its uses alternate |
| ConnectionPool.Cycle.constructor | nginx/b_正向代理服务/workdir/nginx-1.25.0/src/event/ngx_event.c:760-800 | all connections start free, in order, whatever the flags in fresh memory |
| ConnectionPool.Cycle.Reusable | nginx/b_正向代理服务/workdir/nginx-1.25.0/src/core/ngx_connection.c:1341-1369 | the connection leaves its place and, if reusable, becomes first; the others keep their order; the queue is exactly the flagged live connections |
| ConnectionPool.Cycle.Free | nginx/b_正向代理服务/workdir/nginx-1.25.0/src/core/ngx_connection.c:1240-1250 | the connection heads the free list and its file entry is cleared if it was its own |
| ConnectionPool.Cycle.CloseConnection | nginx/b_正向代理服务/workdir/nginx-1.25.0/src/core/ngx_connection.c:1253-1306 | a live connection becomes free and leaves the queue; closing twice changes nothing |
| ConnectionPool.Cycle.Take | nginx/b_正向代理服务/workdir/nginx-1.25.0/src/core/ngx_connection.c:1193-1236 | the first free connection gets the file, cleared, with the instance bit flipped |
| ConnectionPool.Cycle.GetConnection | nginx/b_正向代理服务/workdir/nginx-1.25.0/src/core/ngx_connection.c:1174-1237 | a live connection with that file, or NULL when the number is out of range or none is free after draining |
| ConnectionPool.Cycle.DrainConnections | nginx/b_正向代理服务/workdir/nginx-1.25.0/src/core/ngx_connection.c:1372-1426 | nothing happens while more than a sixteenth are free, or none is reusable; drained connections are always the last of the queue; with idle handlers exactly max(min(32, reusable/8), 1) calls and one more if none is free |
| ConnectionPool.Cycle.Do | nginx/b_正向代理服务/workdir/nginx-1.25.0/src/core/ngx_connection.c:1174-1426 | every step of any handler keeps all pool invariants |
| ConnectionPool.Cycle.Handle | nginx/b_正向代理服务/workdir/nginx-1.25.0/src/core/ngx_connection.c:1409-1424 | every run of steps does, with drains and handlers nested to any depth |
| ConnectionPool.Worker | nginx/b_正向代理服务/workdir/nginx-1.25.0/src/core/ngx_connection.c:1174-1426 | so does every run of a worker from its start |
| Reload.MatchSockets | nginx/b_正向代理服务/workdir/nginx-1.25.0/src/core/ngx_cycle.c:505-616 | in place, every new entry in order takes over the first old entry that suits, and is to be opened if it has no socket |
| Reload.SameAddrMeans | nginx/b_正向代理服务/workdir/nginx-1.25.0/src/core/ngx_inet.c:1324-1400 | addresses are the same exactly when they are equal, or are unix paths equal up to the shorter one and 108 bytes |
| Reload.MatchedEntry | nginx/b_正向代理服务/workdir/nginx-1.25.0/src/core/ngx_cycle.c:512-599 | a matched entry has the socket, type and address of the old entry it names, the flags this asks for and everything else as configured, and only entries without a socket are opened |
| Reload.MatchingInjective | nginx/b_正向代理服务/workdir/nginx-1.25.0/src/core/ngx_cycle.c:512-584 | no old entry is taken over twice |
| Reload.RemainsForOne | nginx/b_正向代理服务/workdir/nginx-1.25.0/src/core/ngx_cycle.c:529-534 | an old entry that remains was taken over by some new one |
| Reload.ClassCount | nginx/b_正向代理服务/workdir/nginx-1.25.0/src/core/ngx_cycle.c:512-584 | of each IPv4 or IPv6 type, address and port as many are taken over as the lesser of non-ignored old and new entries |
| Reload.OpenOne | nginx/b_正向代理服务/workdir/nginx-1.25.0/src/core/ngx_connection.c:431-692 | an entry that needs a socket makes one attempt, and that attempt alone decides: opened, it has the new descriptor; in use, it is to be tried again; failed otherwise, the whole call fails; in both last cases what was opened for it is closed again. Other entries make none, and do not change |
| Reload.OpenAll | nginx/b_正向代理服务/workdir/nginx-1.25.0/src/core/ngx_connection.c:418-692 | one try attempts every missing entry once, in order, up to the first fatal failure; without one, the entries still missing are as many as were in use |
| Reload.OpenSockets | nginx/b_正向代理服务/workdir/nginx-1.25.0/src/core/ngx_connection.c:406-712 | it succeeds exactly when, within five tries, one has no failure and none before it a fatal one, each trying what the one before left in use; it fails exactly when a failure is fatal or the fifth try still finds an address in use; the descriptors open are those before and those the entries got, all different |
| Reload.SucceedOrFail | nginx/b_正向代理服务/workdir/nginx-1.25.0/src/core/ngx_connection.c:406-712 | these two conditions exclude each other |
| Reload.CannotFail | nginx/b_正向代理服务/workdir/nginx-1.25.0/src/core/ngx_connection.c:406-712 | with nothing missing, or if every attempt opens its socket, the second is impossible |
| Reload.Rollback | nginx/b_正向代理服务/workdir/nginx-1.25.0/src/core/ngx_cycle.c:924-935 | after a failure exactly the descriptors this attempt opened are closed |
| Reload.CloseLeftOver | nginx/b_正向代理服务/workdir/nginx-1.25.0/src/core/ngx_cycle.c:705-718 | the sockets nobody took over are closed, in order |
| Reload.OldSocketHeld | nginx/b_正向代理服务/workdir/nginx-1.25.0/src/core/ngx_cycle.c:505-620 | an old socket is held by exactly one new entry if its entry remains, and by none otherwise |
| Reload.LeftOverOnce | nginx/b_正向代理服务/workdir/nginx-1.25.0/src/core/ngx_cycle.c:705-718 | with different descriptors each one left over is closed once |
| Reload.NewOpen | nginx/b_正向代理服务/workdir/nginx-1.25.0/src/core/ngx_cycle.c:505-718 | what a successful reload leaves open: what was open besides the old sockets, and the sockets of the new entries |
| Reload.ReloadSockets | nginx/b_正向代理服务/workdir/nginx-1.25.0/src/core/ngx_cycle.c:505-737 | it succeeds exactly when nothing failed earlier and the missing sockets open, so always if the kernel opens every socket or all are taken over; on success every valid old descriptor is held by one new entry and open, or closed exactly once, the new descriptors are different, and the descriptors open are theirs and all that were open besides the old ones; on failure they are those before and nothing held before was closed |
| Reload.Reloads | nginx/b_正向代理服务/workdir/nginx-1.25.0/src/core/ngx_cycle.c:505-935 | over any number of reloads, with failures anywhere, no socket is leaked and none is lost: the descriptors open are those of the cycle left and those open besides the first cycle's, which are never closed |
| SharedZones.SameNameMeans | nginx/b_正向代理服务/workdir/nginx-1.25.0/src/core/ngx_cycle.c:1312-1320 | names compare as a length and a C string, so being the same name is an equivalence |
| SharedZones.Add | nginx/b_正向代理服务/workdir/nginx-1.25.0/src/core/ngx_cycle.c:1291-1362 | the loop gives the zone of that name or a new one, or refuses a different use or size |
| SharedZones.TwoDeclarations | nginx/b_正向代理服务/workdir/nginx-1.25.0/src/core/ngx_cycle.c:1312-1342 | of two declarations of one name the second is refused exactly when the tags differ, or both give a size and the sizes differ; the size is the first one given |
| SharedZones.OtherDeclaration | nginx/b_正向代理服务/workdir/nginx-1.25.0/src/core/ngx_cycle.c:1345-1361 | a name not declared before is never refused and gives one new zone |
| SharedZones.DeclaredZone | nginx/b_正向代理服务/workdir/nginx-1.25.0/src/core/ngx_cycle.c:1322-1361 | a zone that is given has the name, the tag and the size asked for |
| SharedZones.NamesStayUnique | nginx/b_正向代理服务/workdir/nginx-1.25.0/src/core/ngx_cycle.c:1291-1362 | names stay unique under any run of declarations |
| SharedZones.FindCounterpart | nginx/b_正向代理服务/workdir/nginx-1.25.0/src/core/ngx_cycle.c:441-483 | the first old zone of that name decides whether it is taken over |
| SharedZones.GoesOn | nginx/b_正向代理服务/workdir/nginx-1.25.0/src/core/ngx_cycle.c:464-480 | a zone goes on as another exactly when the names are the same, tag and size are equal, and it has no noreuse flag |
| SharedZones.BothSidesAgree | nginx/b_正向代理服务/workdir/nginx-1.25.0/src/core/ngx_cycle.c:464-690 | a new zone takes over an old one exactly when the old one, looked up from its side, goes on as the new one |
| SharedZones.TakeoverInjective | nginx/b_正向代理服务/workdir/nginx-1.25.0/src/core/ngx_cycle.c:441-480 | no old zone is taken over twice |
| SharedZones.CreateZones | nginx/b_正向代理服务/workdir/nginx-1.25.0/src/core/ngx_cycle.c:413-500 | it succeeds exactly when every zone has a size and is taken over, or gets memory, a pool and its init callback's consent; otherwise it stops at the first that does not; each zone looked at has the old address or one of its own, all different; memory in use grows by exactly those |
| SharedZones.Rollback | nginx/b_正向代理服务/workdir/nginx-1.25.0/src/core/ngx_cycle.c:856-917 | a failed reload frees exactly the memory it allocated, once each |
| SharedZones.FreeDead | nginx/b_正向代理服务/workdir/nginx-1.25.0/src/core/ngx_cycle.c:645-702 | the old zones that do not go on are freed |
| SharedZones.TakenOverIffLive | nginx/b_正向代理服务/workdir/nginx-1.25.0/src/core/ngx_cycle.c:645-702 | an old zone is kept exactly when some new zone has its address, if the noreuse flags agree |
| SharedZones.FlagsDiffer | nginx/b_正向代理服务/workdir/nginx-1.25.0/src/core/ngx_cycle.c:685-690 | where the flags differ, the old zone is freed though taken over, or kept though nobody has it |
| SharedZones.CommitIffFlagsAgree | nginx/b_正向代理服务/workdir/nginx-1.25.0/src/core/ngx_cycle.c:645-702 | every old zone is freed once if no new zone took it over and kept if one did, exactly when zones in both cycles agree on noreuse |
| SharedZones.NewMemory | nginx/b_正向代理服务/workdir/nginx-1.25.0/src/core/ngx_cycle.c:441-702 | what a successful reload leaves mapped |
| SharedZones.ReloadZones | nginx/b_正向代理服务/workdir/nginx-1.25.0/src/core/ngx_cycle.c:413-917 | it succeeds exactly when all zones are created and nothing fails later; where the flags agree a success leaves every new zone mapped at an address of its own, and mapped in all what was mapped besides the old zones and the new zones; a failure leaves mapped what was mapped before |
| SharedZones.Reloads | nginx/b_正向代理服务/workdir/nginx-1.25.0/src/core/ngx_cycle.c:413-917 | over any number of reloads with configurations that agree on noreuse, with failures anywhere, no memory is leaked and none is lost |
| BufChain.SentIsConserved | nginx/b_正向代理服务/workdir/nginx-1.25.0/src/core/ngx_buf.c:271-314 | the chain gets shorter by the lesser of the bytes sent and its total |
| BufChain.SentIsDropped | nginx/b_正向代理服务/workdir/nginx-1.25.0/src/core/ngx_buf.c:271-314 | taking a chain as the bytes it has left to send, in memory, in a file or both: sending n bytes drops exactly the first n |
| BufChain.SentPlace | nginx/b_正向代理服务/workdir/nginx-1.25.0/src/core/ngx_buf.c:271-314 | before the returned link all is sent, the link itself is advanced within its size, later ones are untouched |
| BufChain.SentStops | nginx/b_正向代理服务/workdir/nginx-1.25.0/src/core/ngx_buf.c:271-314 | sending goes on at the first link that is not a mere marker and either has bytes left or comes when all bytes sent are accounted for |
| BufChain.SendingComposes | nginx/b_正向代理服务/workdir/nginx-1.25.0/src/core/ngx_buf.c:271-314 | sending a and then b from the returned link is sending a + b |
| BufChain.Links.UpdateSent | nginx/b_正向代理服务/workdir/nginx-1.25.0/src/core/ngx_buf.c:271-314 | in place on the linked chain, the buffers become those, others stay, and the returned link is the right one |
| BufChain.RecyclingConserves | nginx/b_正向代理服务/workdir/nginx-1.25.0/src/core/ngx_buf.c:203-222 | no link is lost or made; busy ends as a suffix of what it was, empty or headed by a non-empty buffer of the owner |
| BufChain.RecyclingResets | nginx/b_正向代理服务/workdir/nginx-1.25.0/src/core/ngx_buf.c:212-221 | every link that becomes free was an empty one of the owner and has its position and its end at its start; no other buffer changes |
| BufChain.Links.Append | nginx/b_正向代理服务/workdir/nginx-1.25.0/src/core/ngx_buf.c:190-201 | out ends up at the end of busy |
| BufChain.Links.UpdateChains | nginx/b_正向代理服务/workdir/nginx-1.25.0/src/core/ngx_buf.c:184-223 | the pointer operations make the lists free, busy and pool as recycling says |
| BufChain.Links.CoalesceFile | nginx/b_正向代理服务/workdir/nginx-1.25.0/src/core/ngx_buf.c:226-268 | exactly how many links are joined and to what size: those in one file, each starting where the one before ends, with the last one cut at the limit rounded up to a page if it is longer; above the limit only on a page boundary |
| BufChain.NextPageUnique | nginx/b_正向代理服务/workdir/nginx-1.25.0/src/core/ngx_buf.c:239-244 | the page boundary named there is the only one |
| BufChain.CoalescedIsRange | nginx/b_正向代理服务/workdir/nginx-1.25.0/src/core/ngx_buf.c:226-268 | every position of the range is in a buffer of the chain, of the same file |
| BufChain.CoalescedCovers | nginx/b_正向代理服务/workdir/nginx-1.25.0/src/core/ngx_buf.c:226-268 | every link before the new start is wholly in the range |
| LogList.InsertedSorted | nginx/b_正向代理服务/workdir/nginx-1.25.0/src/core/ngx_log.c:676-707 | inserting keeps the levels non-increasing |
| LogList.RunIsSorted | nginx/b_正向代理服务/workdir/nginx-1.25.0/src/core/ngx_log.c:552-673 | after any run of additions to one head the list is sorted and holds every log added, once for each time |
| LogList.ReachedAreWanting | nginx/b_正向代理服务/workdir/nginx-1.25.0/src/core/ngx_log.c:161-165 | in a sorted list stopping at the first log below the level loses nobody |
| LogList.DebugReachesAll | nginx/b_正向代理服务/workdir/nginx-1.25.0/src/core/ngx_log.c:159-165 | with the debug-connection bit every log is reached |
| LogList.DeliveryIsExact | nginx/b_正向代理服务/workdir/nginx-1.25.0/src/core/ngx_log.c:159-196 | after any run of additions a message reaches exactly the logs of its level or above, in their order |
| LogList.Logs.Insert | nginx/b_正向代理服务/workdir/nginx-1.25.0/src/core/ngx_log.c:676-707 | the pointer form, with the head's contents exchanged, keeps the head's address and makes the sorted list |
| LogList.Logs.SetLog | nginx/b_正向代理服务/workdir/nginx-1.25.0/src/core/ngx_log.c:552-673 | a head without a level is set up in place, otherwise the list gains the log; the head never moves |
| LogList.Logs.Deliver | nginx/b_正向代理服务/workdir/nginx-1.25.0/src/core/ngx_log.c:158-196 | the delivery loop reaches those logs |
| Handover.Atoi | nginx/b_正向代理服务/workdir/nginx-1.25.0/src/core/ngx_string.c:966-991 | the loop reads a number or refuses |
| Handover.AtoiIsExact | nginx/b_正向代理服务/workdir/nginx-1.25.0/src/core/ngx_string.c:966-991 | it accepts exactly the digit strings whose value fits 63 bits, and gives that value |
| Handover.WriteVar | nginx/b_正向代理服务/workdir/nginx-1.25.0/src/core/nginx.c:671-689 | the variable, with its NUL, fits the 8 bytes and 12 for each entry allocated for it |
| Handover.ReadVar | nginx/b_正向代理服务/workdir/nginx-1.25.0/src/core/nginx.c:481-510 | the loop reads the descriptors and tells whether something is left over, as FieldsAreRead says |
| Handover.FieldsAreRead | nginx/b_正向代理服务/workdir/nginx-1.25.0/src/core/nginx.c:481-510 | any text, cut at its colons and semicolons: the numbers before the first bad field are taken, and a bad field or a tail is reported unless it is empty |
| Handover.FieldsExist | nginx/b_正向代理服务/workdir/nginx-1.25.0/src/core/nginx.c:481-482 | every text is made of such fields |
| Handover.DescriptorIs | nginx/b_正向代理服务/workdir/nginx-1.25.0/src/core/nginx.c:501-501 | the cast to a descriptor keeps the low 32 bits |
| Handover.RoundTrip | nginx/b_正向代理服务/workdir/nginx-1.25.0/src/core/nginx.c:481-691 | for every list of entries with 32-bit descriptors the new process reads exactly those of the entries not ignored, in order, with nothing left over |
| Handover.WrittenHasNoNul | nginx/b_正向代理服务/workdir/nginx-1.25.0/src/core/nginx.c:686-689 | the text has no NUL, so the reader sees all of it |

## Left out

- Allocation failures, in every module: the pool always has memory, as a failure only ends the call.
- HashTable.HashInit: does not model a bucket size from 8 to 23 with no live key, where the size search divides by zero; below 8 the subtraction wraps, as modelled.
- Aliasing of strings, in every module: the key arrays point to the caller's bytes, which are copied here.
- ServerNames.BuildCombined: takes the wildcard keys in any order in which none compares greater than the next one, instead of modelling ngx_qsort.
- ServerNames.ServesIffContiguous: asks for patterns with different values, because a lost key goes unnoticed where another one has its value.
- Regular expressions among server names, and the choice of a server after the lookup.
- ConfToken.ConfFile.ReadToken: does not model read errors and short reads, nor parameters given on the command line, which only end the call.
- Parsing blocks and calling directive handlers after a token: long, but no harder than the tokenizer.
- Inet6.Inet6Ntop: the caller's buffer is as long as it says; ports and the other address families are not printed.
- Md5 and Crc32: alignment and byte order of the machine, which only choose between equal ways to read words.
- ConnectionPool.Cycle.CloseConnection: does not model timers, event registration and the close of the descriptor itself; they do not touch the pool.
- ConnectionPool.Cycle.Do: a handler makes only live connections reusable, and changes the data pointer of live connections only.
- Reload.ReloadSockets: outside test mode only; the deferred-accept flags, socket options after opening and the deletion of unix socket files are not modelled.
- Reload.ClassCount: not stated for unix sockets, whose paths are compared up to the shorter one, so that "same address" is not an equivalence there.
- SharedZones.ReloadZones: what the zones' own init callbacks do with the memory is only success or failure.
- BufChain.Links.UpdateSent: every link has a buffer of its own, and a buffer that is neither special nor in memory nor in a file is empty.
- LogList.Logs.SetLog: only calls that succeed; the parsing of levels, writers and files is not modelled.
- LogList.Logs.Deliver: which logs are reached, not the formatting of the message nor the one-second pause after a full disk.
- Handover.ReadVar: stops before the sockets are examined with getsockname.
- The rest of the core (slab allocator, red-black and radix trees, resolver, open file cache, syslog, timers) and all modules: not part of this model.
