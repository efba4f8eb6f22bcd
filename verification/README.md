# XStore: a verified model

XStore is an ordered key-value store. The server keeps its pairs in a B+Tree
with unsorted leaves (`XTree`). Clients hold a learned cache of the tree: a
dispatcher picks a model by key, the model predicts a range of labels, a
translation table turns labels into leaf addresses, and one-sided reads fetch
those leaves. This project models the tree, the cache, its training and its use,
and the protocols around them, and proves what the design depends on.

The tree and the cache are tied together by one result: whatever the two layers
of models learn, a client's lookup returns exactly what the tree's `get` returns
(`Lookup.CoreEval`). From a loaded tree on, with the cache sent as bytes and parsed
by the client, this succeeds exactly if the image fits
(`Deployment.TrainAndLookup`). The YCSB server and client, which train on samples,
get there for learned functions that do not fall
(`Deployment.YcsbTrainAndLookup`). The trained error bounds are the least that do
this (`Server.DataDistLeast`), so the better the models, the fewer pages a lookup
reads, down to one or two (`Lookup.ExactNeverAsks`).

## How the project is laid out

| files | what they are about |
|---|---|
| `Keys`, `Sorting` | keys, values, machine integers, the library sort |
| `XNode` | leaves: pages as values, the class `Leaf`, the median split |
| `BTree`, `TreeOrder`, `LeafChain`, `Occupancy` | the tree as a value: shape and insert, order, chain of leaves and contents, occupancy |
| `TreeInner`, `XTree` | inner nodes and the tree as objects that are updated in place, leaves from a pool |
| `Store`, `Runs` | the whole tree: what an insert does, what whole runs of inserts keep |
| `TreeIter`, `TTIter` | iterators along the leaf chain; labels, table entries, the iterator that fills the table |
| `Samplers`, `SubModel`, `Trainer`, `Reach` | samples, models and error bounds, training, when a trained model reaches every key |
| `SmallTrees`, `Shrinking` | two short runs of inserts; what thinning out samples means for the keys of a tree |
| `Rmi`, `Server` | dispatching keys to models, building the cache |
| `BatchOps`, `Lookup` | batched reads, the client's lookup |
| `Versioned` | the object with two sequence numbers, one writer and many readers |
| `LockElision` | hardware transactions with a fallback lock |
| `FlatTree`, `Programs`, `OneNode` | get and insert on a tree with one inner node, as programs over memory cells, run under them |
| `Image` | the bytes of the cache: written by the server, parsed by the client |
| `Rpc` | messages, reply station, coroutines |
| `Deployment` | server and client together: loading, training, sending the cache, looking up |

Code that changes objects in place is modelled by classes and methods. Their
contracts tie the new state to a function of the old one, and the lemmas are
about those functions: `TreeInner.Inner.Insert`, for example, is proved to turn
the value of a subtree into what `BTree.InsertT` computes, and `TreeOrder`,
`LeafChain`, `Occupancy` and `Store` prove what `InsertT` achieves. Protocols
between threads, machines or coroutines are step systems whose results hold in
every reachable state of every run.

## What callers must guarantee

These are the program's own conditions: `N >= 2`; no key equals the placeholder
`kInvalidKey`; an inserted key is not stored yet (`add_key` never looks); `get`,
`seek` and training need a non-empty tree; leaves lie below 2^56 (an assertion of
`add_w_incar`); labels stay below 2^30, so that neither they nor the sums of
`get_predict_range` leave the range of `int`. The trained functions are arbitrary
functions from keys to reals; only the results about sampled pages and about
ordered dispatching assume that they do not fall, the former also that they stay in
the range of `int`, on the stored keys.

## Where the code and its comments differ

- The comment in `dispatcher.hh` says that keys are routed to numbers from 1 on;
  the code, and the model, start at 0.
- `logic_addr.hh` describes labels as two bit fields; the code uses
  `id * N + offset`.
- `atomic_read` means to give up after a million retries, but sets its counter to
  zero at every attempt (`Versioned.RetriesNeverAdd`).
- `RTMScope` would wait for the lock after an abort with code 0x73, but aborts
  itself with 0xff (`LockElision.BusyRetries`).

## What is false of the code, and exactly when it holds

- Shrinking the training set moves the cap of the predicted range. All trained
  keys stay in reach if and only if the last sample kept is on the page of the
  last sample (`Reach.ShrinkExact`, `Reach.StepShrinkExact`, and with pages sampled
  first `Reach.SampledAndShrunk`). A step of one always satisfies this. Page ends
  thinned out by a step of two, as the YCSB server has them, satisfy it for every
  trainer on every tree that inserts build, for functions that do not fall and stay
  in the range of `int`, if and only if leaves have at least four slots
  (`Shrinking.StepTwoExact`): the server's 16 do. With two slots a key is out of
  reach after inserting 20, 30, 40, 35, with three after 20, 30, 40, 35, 50, 32,
  whatever was learned (`Shrinking.StepTwoLoses`).
- The page sampler means to keep the smallest and the largest key of a page in
  whatever order they come. It always keeps the smallest, and the largest if and
  only if that is not fed first or is alone (`Samplers.LargestKept`;
  `Samplers.LargestFirstIsLost` is an instance). Of ascending keys it keeps exactly
  the ends of every page (`Samplers.PageEndsKept`).
- Versioned reads with at most w writes during them return the payload of one
  write, for objects of two words or more, if and only if w is below 2^32
  (`Versioned.SafeIff`, from `Versioned.ReadsOneWrite` and `Versioned.WrapTears`).
- A read that no write disturbs is meant to succeed. It does if and only if the
  number of payloads written so far, the first one included, is not a multiple of
  2^32: then the sequence number is the invalid one, and the read is retried for as
  long as nobody writes (`Versioned.QuietRead`).
- The YCSB client looks for the tables right behind the models and does not skip the
  padding. It gets the server's tables, whatever the padding holds, if and only if
  the models end at a multiple of 8 (`Image.UnskippedExact`).
- A message header has 7 bits for the coroutine: with more than 128 coroutines a
  call runs into its assertion (`Rpc.TooManyCoroutines`), with at most 128 none
  ever does (`Rpc.NothingFails`).

## Model

| member | source | states |
|---|---|---|
| XNode.Leaf.AddKey | xkv_core/src/xtree/xkeys.hh:42-50 | a key goes into the first empty slot; a full page is left alone and says so |
| XNode.Leaf.SearchKey | xkv_core/src/xtree/xkeys.hh:52-59 | the slot found is the first with the key, and none is found only if there is none |
| XNode.MedianPair | xkv_core/src/xtree/xkeys.hh:95-108 | however (key, slot) pairs are sorted by key, the middle one names a slot with the key of middle rank, and among distinct keys the only one |
| Sorting.SortUnique | xkv_core/src/xtree/xkeys.hh:101-104 | any two sorted rearrangements agree, so nothing depends on the sort |
| XNode.PutEntries | xkv_core/src/xtree/xnode.hh:187-195 | storing an absent key in a page adds exactly that pair |
| XNode.ClearEntries | xkv_core/src/xtree/xkeys.hh:85 | emptying a slot removes exactly the pair in it |
| XNode.UpperSize | xkv_core/src/xtree/xnode.hh:209-230 | the pivot of a full leaf has n - n/2 keys from it up and n/2 below it |
| XNode.HalvesOk | xkv_core/src/xtree/xnode.hh:209-230 | moving the pivot and everything above it leaves two valid pages that hold exactly the old pairs, cut at the pivot, with the pivot in slot 0 of the candidate |
| XNode.SplitPartition | xkv_core/src/xtree/xnode.hh:196-248 | a split conserves the pairs and adds the new one; left < first key of the candidate <= right; n + 1 pairs in all and neither page less than half full |
| XNode.SplitMeta | xkv_core/src/xtree/xnode.hh:205-246 | a split counts the incarnation up modulo 2^16 and links the candidate between the leaf and its old successor |
| XNode.InsertKeepsSlots | xkv_core/src/xtree/xnode.hh:187-249 | a key that stays in its leaf stays in its slot with its value, split or not |
| XNode.HalvesRoom | xkv_core/src/xtree/xnode.hh:214-240 | the inserts into either half during a split never overflow |
| XNode.Leaf.FindMedianKey | xkv_core/src/xtree/xkeys.hh:95-108 | finds a slot of the key of middle rank on any page, full or not; on a full one the only such slot |
| XNode.Leaf.MoveUpperHalf | xkv_core/src/xtree/xnode.hh:209-230 | in place, leaf and candidate become the two halves |
| XNode.Leaf.RawInsert | xkv_core/src/xtree/xnode.hh:187-249 | in place, leaf and candidate become what the page functions compute; a candidate without a candidate of its own does not split |
| XNode.Leaf.SplitInsert | xkv_core/src/xtree/xnode.hh:196-246 | the split of a full leaf, with the new pair on its side of the pivot |
| BTree.LeafStepOk | xkv_core/src/xtree/inner_node.hh:80-88 | a leaf either stores the pair or becomes two leaves that partition its pairs and the new one |
| BTree.FindTipPos | xkv_core/src/xtree/mod.hh:42-56 | the descent ends at the leaf at a definite position of the chain |
| BTree.AddChildCut | xkv_core/src/xtree/inner_node.hh:99-124 | splitting a full node and inserting into the right half equals inserting first and cutting afterwards |
| TreeOrder.InsertGood | xkv_core/src/xtree/inner_node.hh:62-126 | inserting an absent key keeps all leaves at one depth and all separators strict bounds of their subtrees; a split yields a separator between the two parts |
| TreeOrder.SplitSideAgrees | xkv_core/src/xtree/inner_node.hh:112-119 | at a full node the branch chosen by comparing separators agrees with the position of the child, so the assertion on the position never fails |
| TreeOrder.InsertFlat | xkv_core/src/xtree/inner_node.hh:62-126 | however many nodes split, the sequence of leaves changes only at the leaf found, by that leaf and possibly the candidate behind it |
| LeafChain.OrderedAscending | xkv_core/src/xtree/inner_node.hh:51-60 | from left to right every key of a leaf is below every key of the next |
| LeafChain.FindSplits | xkv_core/src/xtree/mod.hh:42-56 | leaves left of the one found hold only smaller keys, leaves right of it only larger ones |
| LeafChain.LookupContents | xkv_core/src/xtree/mod.hh:31-40 | descent and search give the stored value of a stored key and nothing for any other |
| LeafChain.InsertContents | xkv_core/src/xtree/mod.hh:87-127 | an insert adds exactly its pair to what the leaves hold |
| LeafChain.InsertLinked | xkv_core/src/xtree/xnode.hh:243-246 | after an insert every leaf still points to its right neighbour, no leaf occurs twice, and the set of leaves grows by the candidate exactly on a split |
| Occupancy.InsertFilled | xkv_core/src/xtree/xnode.hh:209-240 | leaves that are at least half full stay so, and a leaf split makes two such leaves |
| Occupancy.SplitEven | xkv_core/src/xtree/inner_node.hh:105-124 | a full node keeps (N+1)/2 children, the sibling gets the others, the old separator between them goes up, and then the new child enters the part that its left neighbour is in |
| Occupancy.InsertBushy | xkv_core/src/xtree/inner_node.hh:105-124 | inner nodes below the root keep at least (N+1)/2 children, the root two |
| Occupancy.FilledCount | xkv_core/src/xtree/xnode.hh:209-240 | half-full leaves in ascending order hold at least n/2 pairs each, all different |
| Occupancy.RootCount | xkv_core/src/xtree/inner_node.hh:105-124 | a tree of depth d >= 1 has at least 2*((N+1)/2)^(d-1) leaves |
| TreeInner.Inner.FindChildrenIdx | xkv_core/src/xtree/inner_node.hh:51-60 | the index is the first separator above the key |
| TreeInner.Inner.CopyAfterNTo | xkv_core/src/xtree/inner_node.hh:135-146 | the new sibling gets exactly the separators and children behind the threshold |
| TreeInner.Inner.InsertAtPos | xkv_core/src/xtree/inner_node.hh:151-160 | the separator and its right child go to the position, everything behind moves by one |
| TreeInner.Inner.SplitSlots | xkv_core/src/xtree/inner_node.hh:103-123 | in place, a full node and its new sibling get the halves, cut at the old separator number (N+1)/2 - 1, with the new child in the proper one |
| TreeInner.Inner.Insert | xkv_core/src/xtree/inner_node.hh:62-126 | the recursive insert turns the subtree into the value of the pure insert, splits, sibling and separator included, and says whether the candidate was used |
| XTree.XTree.FindLeaf | xkv_core/src/xtree/mod.hh:42-56 | ends at the leaf that the tree's value names |
| XTree.XTree.Get | xkv_core/src/xtree/mod.hh:31-40 | returns exactly the stored pairs |
| XTree.XTree.InsertCore | xkv_core/src/xtree/mod.hh:87-127 | the tree becomes what the pure insert computes; the result says whether the new leaf was linked, and if not it is untouched and outside of the tree |
| XTree.XTree.InsertWAlloc | xkv_core/src/xtree/mod.hh:64-82 | one step of a run of inserts; stored pairs become the old ones and the new one; true exactly when one leaf was linked; the next candidate is blank and outside of the tree; leaves and candidate fill disjoint blocks, one allocation each; a pool sized for the keys never runs out |
| XTree.XTree.TakePreAllocedLeaf | xkv_core/src/xtree/mod.hh:140-150 | a fresh candidate takes the place of the one that was linked |
| XTree.XAlloc.Alloc | xkv_core/src/xalloc.hh:26-39 | hands out the next block exactly when one is left |
| Store.GetIsLookup | xkv_core/src/xtree/mod.hh:31-40 | on every well-formed tree, get is a lookup in the stored pairs |
| Store.InsertOk | xkv_core/src/xtree/mod.hh:87-127 | insert refines map update: order, depth, occupancy, chain and distinct leaves are kept, the pairs become the old ones and the new one, the leaves grow by the candidate exactly when reported |
| Store.InsertDepth | xkv_core/src/xtree/mod.hh:96-123 | an insert raises the tree by at most one level; a lone leaf gets a root exactly when it splits |
| Store.HeightBound | xkv_core/src/xtree/inner_node.hh:105-124 | a tree of depth d >= 1 holds at least 2*(n/2)*((n+1)/2)^(d-1) pairs |
| Store.DepthSixteen | xkv_core/src/xtree/inner_node.hh:105-124 | with 16 slots, a tree of fewer than 2^28 pairs is at most eight levels deep |
| Store.PoolSuffices | benchs/data_dist/server/main.cc:77-81 | keys/(n/2) + 16 leaves cover those linked, the spare one, and one more |
| Runs.RunPairs | xkv_core/src/xtree/mod.hh:58-127 | in every state of a run of inserts the tree is well formed and holds the initial pairs and those inserted |
| Runs.GetAfterRun | xkv_core/src/xtree/mod.hh:31-127 | after any run from the empty tree, get returns the inserted value of every inserted key and nothing for any other |
| Runs.RightwardReachable | xkv_core/src/xtree/xnode.hh:243-246 | a key once in a leaf is found, after any run, in that leaf or further right, strictly before the leaf that was its successor |
| Runs.FreshTag | xkv_core/src/xtree/xnode.hh:205-246 | after any run the incarnation is the old one plus the number of splits, modulo 2^16; with fewer than 256 splits the low 8 bits are unchanged exactly if there was none, and then every key is in its slot with its value |
| TreeIter.ItemsOk | xkv_core/src/xtree/iter.hh:43-115 | an iterator yields exactly the occupied slots of the pages from where it starts, ordered by page and slot |
| TreeIter.ItemsPlain | xkv_core/src/xtree/iter.hh:43-115 | the unsorted iterator yields the keys in the slots where the pages have them |
| TreeIter.WalkComplete | xkv_core/src/xtree/sorted_iter.hh:33-131 | from the first leaf every stored key is yielded exactly once, by the sorted iterator in strictly ascending order, by the other with all keys of a page below the next page's |
| TreeIter.StoreNonEmpty | xkv_core/src/xtree/sorted_iter.hh:113-123 | no leaf of a non-empty tree is empty, so a load always finds a key |
| TreeIter.MinFirst | xkv_core/src/xtree/sorted_iter.hh:33 | the leaf found for the smallest key is the first of the chain |
| TreeIter.SeekComplete | xkv_core/src/xtree/sorted_iter.hh:113-123 | after a seek every stored key from there on is yielded |
| TreeIter.LeafCursor.constructor | xkv_core/src/xtree/iter.hh:31 | a new iterator is about to yield everything |
| TreeIter.LeafCursor.SeekIdx | xkv_core/src/xtree/iter.hh:109-115 | skips exactly the empty slots |
| TreeIter.LeafCursor.Next | xkv_core/src/xtree/iter.hh:43-59 | drops exactly the current item from what is still to come, across page ends, and counts |
| TreeIter.LeafCursor.Seek | xkv_core/src/xtree/iter.hh:97-107 | what is to come is everything from the found leaf on, and there is something |
| TTIter.LogicRoundTrip | xcache/src/logic_addr.hh:49-67 | a label decodes to its page and its offset |
| TTIter.LogicOrder | xcache/src/logic_addr.hh:49-67 | labels are ordered by page, then by offset |
| TTIter.FitsIff | xcache/src/translation_table.hh:47-50 | the assertion of add_w_incar holds of exactly the addresses below 2^56 |
| TTIter.EntryRoundTrip | xcache/src/translation_table.hh:37-53 | an entry gives back the address and the low 8 bits of the incarnation |
| TTIter.TTIter.ResetOldPtr | xcache/src/page_tt_iter.hh:100-112 | a leaf is recorded when it is first reached and only then |
| TTIter.TTIter.Next | xcache/src/page_tt_iter.hh:73-77 | one item on; the table stays the run of leaves from the first to the current |
| TTIter.TTIter.Seek | xcache/src/page_tt_iter.hh:81-87 | the walk and the table start at the leaf of the key |
| TTIter.TTIter.OpaqueVal | xcache/src/page_tt_iter.hh:91-98 | the label names a page that is already in the table |
| Samplers.Sampler.AddTo | xcache/src/samplers/page_sampler.hh:37-69 | state and output are those of everything fed so far |
| Samplers.Sampler.Finalize | xcache/src/samplers/page_sampler.hh:90-92 | the result is what the sampler keeps of all that was fed |
| Samplers.StepKeeps | xcache/src/samplers/step_sampler.hh:21-38 | a step sampler keeps exactly the samples at the multiples of its step |
| Samplers.SteppedLast | xcache/src/samplers/step_sampler.hh:21-38 | the last sample kept is the one at the last multiple of the step |
| Samplers.PageEndsKept | xcache/src/samplers/page_sampler.hh:37-92 | of an ascending feed exactly the first and the last sample of every page are kept |
| Samplers.Bracketed | xcache/src/samplers/page_sampler.hh:37-92 | every sample lies between two kept ones of its page |
| Samplers.KeptFrom | xcache/src/samplers/page_sampler.hh:37-92 | nothing is kept that was not fed |
| Samplers.KeptBlocks | xcache/src/samplers/page_sampler.hh:37-92 | of any feed, in any order, each run of samples on one page leaves its smallest one and the largest of those behind the first |
| Samplers.LargestKept | xcache/src/samplers/page_sampler.hh:58-67 | of every run of samples on one page of any feed the smallest is kept, and the largest exactly if it is not fed first or is alone |
| Samplers.LargestFirstIsLost | xcache/src/samplers/page_sampler.hh:58-67 | an input on which the page's largest key is lost |
| SubModel.CoversGap | benchs/data_dist/server/db.hh:183-232 | bounds around zero reach a page exactly if they include the nearest offset that lands on it |
| SubModel.GapLeast | benchs/data_dist/server/db.hh:183-232 | the widening is sound and least: among all wider bounds those that reach the page are exactly those at least as wide |
| SubModel.ShortcutSound | benchs/data_dist/server/db.hh:194-198 | the already-covered test, computed modulo 2^64, never claims too much, also when an offset falls below zero |
| SubModel.PageUpdater | benchs/data_dist/server/db.hh:183-232 | the search takes no more steps than label and prediction are apart, ends at the nearest offset on the page, and widens the bounds by just that |
| SubModel.SamePageUpdate | benchs/ycsb/server/db.hh:85-103 | bounds only widen, reach the label's page, and do not change when the prediction is on it |
| SubModel.DefaultUpdate | x_ml/src/xmodel.hh:31-46 | bounds only widen, by just the error |
| SubModel.PullIs | x_ml/src/xmodel.hh:22-46 | how far one sample widens the bounds: not at all if it is right, never beyond its error, and for page search and plain errors just as far as any bounds must go that reach it |
| SubModel.PullLeast | benchs/data_dist/server/db.hh:183-232 | widening by the pull is least among all wider bounds that reach the sample, and a sample already reached changes nothing |
| SubModel.Update | x_ml/src/xmodel.hh:146-163 | each updater widens the bounds by just the sample's pull |
| SubModel.CoversBetween | x_ml/src/xmodel.hh:116-122 | bounds that reach a page from two predictions reach it from every one between |
| SubModel.PredictsLabel | x_ml/src/xmodel.hh:105-110 | a learned value up to max - 1 is rounded down to a label, a negative one becomes 0, a larger one the cap |
| SubModel.XSubModel.GetPointPredict | x_ml/src/xmodel.hh:105-110 | the prediction is that label |
| SubModel.XSubModel.GetPredictRange | x_ml/src/xmodel.hh:105-122 | the range is not empty and holds exactly the labels up to max that differ from the prediction by no more than the errors, its ends given by the learned value; no sum overflows |
| SubModel.XSubModel.CalError | x_ml/src/xmodel.hh:146-163 | afterwards the bounds reach every sample from its own prediction, none of the earlier reach is lost, and each bound is the old one or as far as some sample pulls it |
| SubModel.TightIsLeast | x_ml/src/xmodel.hh:146-163 | bounds trained from zero are the least around zero that reach all samples, for page search and plain errors |
| SubModel.TightErrors | benchs/ycsb/server/db.hh:85-103 | where only the page counts, each trained bound is zero or the error of a sample predicted on another page |
| Trainer.FeedRises | xcache/src/submodel_trainer.hh:99-125 | the keys and the labels of the training set are strictly increasing |
| Trainer.FeedPage | xcache/src/submodel_trainer.hh:99-125 | the page in a sample's label is a leaf that holds the sample's key |
| Trainer.FeedOffset | xcache/src/page_tt_iter.hh:91-98 | the offset in a label is the key's rank in its page |
| Trainer.FeedComplete | xcache/src/submodel_trainer.hh:99-125 | every stored key of the trainer's range is in the training set |
| Trainer.XMLTrainer.UpdateKey | xcache/src/submodel_trainer.hh:52-68 | the range grows by just the key, and one training is due |
| Trainer.XMLTrainer.SnapshotTrainLabels | xcache/src/submodel_trainer.hh:99-125 | the loop reads exactly the walk from the range's first leaf to its last key; the table gets a contiguous run of leaves that includes every sample's |
| Trainer.XMLTrainer.TrainWithShrink | xcache/src/submodel_trainer.hh:130-180 | function and cap come from the shrunken set, the bounds reach everything in the full one and are no wider than its samples pull them; nothing happens if no training is due |
| Reach.ReachedInPages | x_ml/src/xmodel.hh:116-122 | once bounds reach a label, its page is in the predicted range exactly if it is not beyond the cap's |
| Reach.ShrinkExact | x_ml/src/xmodel.hh:136-144 | every trained key is in reach if and only if the cap is on the last sample's page |
| Reach.StepShrinkExact | xcache/src/submodel_trainer.hh:161-168 | for a step sampler: if and only if its last kept sample is on the last sample's page |
| Reach.StepOneReaches | benchs/data_dist/server/db.hh:334-343 | with a step of one every trained key is in reach, whatever was learned |
| Reach.PageSamplingSound | xcache/src/samplers/page_sampler.hh:37-92 | for a function that does not fall, bounds trained on page ends reach every key of the pages, if and only if the cap is on the last page |
| Reach.SampledAndShrunk | benchs/ycsb/server/db.hh:172-178 | sampled pages shrunk by steps: the exact condition for every key to be in reach |
| Shrinking.LastEndKept | xcache/src/samplers/step_sampler.hh:21-38 | of page ends, every second one includes an end of the last page, if no page before that has a single sample |
| Shrinking.SampledStepTwo | benchs/ycsb/server/db.hh:172-178 | on every tree with at least four slots a leaf, page ends thinned out by a step of two leave every key of the trainer in reach |
| SmallTrees.SmallBuilt | xkv_core/src/xtree/mod.hh:87-127 | the runs from the empty tree that insert 20, 30, 40, 35 with two slots a leaf, and 20, 30, 40, 35, 50, 32 with three, and the trees they end in |
| Shrinking.StepTwoLoses | benchs/ycsb/server/db.hh:172-178 | in those trees a trainer, with the range that dispatching gives it, has a key out of reach whatever was learned |
| Shrinking.StepTwoExact | benchs/ycsb/server/db.hh:172-178 | a step of two is harmless for every trainer on every tree that inserts build, for every function that does not fall on its keys and stays in the range of int, exactly if leaves have at least four slots |
| Rmi.DispatchInRange | xcache/src/dispatcher.hh:84-96 | every prediction is the number of a model |
| Rmi.DispatchScales | xcache/src/dispatcher.hh:84-96 | a prediction of y among max keys is model d of num exactly when d*max <= y*num < (d+1)*max; below zero it is the first, from max on the last |
| Rmi.DispatchMonotone | xcache/src/dispatcher.hh:84-96 | a first layer that does not fall dispatches in key order |
| Rmi.SelectSecModel | xcache/src/rmi_2.hh:71-81 | the number of the model that the scaled prediction falls into, cut to the models that exist |
| Rmi.RangesApart | xcache/src/rmi_2.hh:101-116 | if the first layer does not fall on the stored keys, the ranges of two models are disjoint and in model order |
| Rmi.TrainersApart | xcache/src/rmi_2.hh:101-116 | so are those of all trainers |
| Rmi.DispatchKeysToTrainers | xcache/src/rmi_2.hh:101-116 | every stored key lies in the range of the trainer its lookup selects, and every range is the tightest; a first layer that does not fall on the keys gives disjoint ranges in model order |
| Server.TrainOne | benchs/data_dist/server/db.hh:334-343 | one trainer's model and table, for both servers: a run of leaves from the range's first, bounds that reach what was sampled, and a predicted range that includes the page of every key of the trainer |
| Server.SchemeReaches | benchs/ycsb/server/db.hh:165-178 | sampling every key with steps of one, or page ends with steps of two for functions that do not fall: either way the predicted range includes the page of every key |
| Server.DataDistLeast | benchs/data_dist/server/db.hh:334-343 | that server's bounds are the least around zero that reach the page of every key of the trainer |
| Server.ExactLeaves | benchs/data_dist/server/db.hh:183-232 | for a function that predicts every label the bounds are 0 and at most 1 |
| Server.YcsbErrors | benchs/ycsb/server/db.hh:85-103 | the other server's bounds are zero or the error of a page end predicted on another page |
| Server.TrainDb | benchs/data_dist/server/db.hh:240-345 | every number that can be selected has a model and a table trained on the range of its own keys, as the server's scheme says |
| BatchOps.CutChain | xcomm/src/batch_rw_op.hh:37-66 | what the doorbell posts is exactly the collected requests, in order |
| BatchOps.BatchOp.ExecuteAsync | xcomm/src/batch_rw_op.hh:37-79 | exactly the collected reads are carried out, only the last is signaled, and links and flags are restored |
| BatchOps.BatchOp.Emplace | xcomm/src/batch_rw_op.hh:26-28 | appends one request |
| Lookup.PredictedLeaf | benchs/data_dist/eval_c.hh:83-102 | for every stored key the predicted pages include the table entry of its leaf, for any learned function |
| Lookup.TableEntry | benchs/data_dist/eval_c.hh:117-124 | every entry a client may follow is a leaf of the tree |
| Lookup.FetchPages | benchs/data_dist/eval_c.hh:116-139 | after the batches of 16 the buffer holds the keys of exactly the pages asked for, in order, with one doorbell for every 16 pages begun |
| Lookup.SearchPages | benchs/data_dist/eval_c.hh:148-176 | finds a value exactly if a fetched page has the key |
| Lookup.PagesRight | benchs/data_dist/eval_c.hh:110-176 | searching the predicted pages never yields a wrong value and finds every stored key |
| Lookup.EvalWithRpc | benchs/data_dist/server/callbacks.hh:68-88 | the server's answer is the tree's get |
| Deployment.MessageAnswers | benchs/data_dist/eval_c.hh:45-68 | in every run of the message exchange, a coroutine that asked for a stored key is resumed with its value |
| Lookup.CoreEval | benchs/data_dist/eval_c.hh:70-176 | the lookup returns the tree's value for every stored key and for any other key no value; it searches the pages of the predicted range itself, and calls the tree instead exactly if these are more than 200 (the message exchange is in Deployment.MessageAnswers) |
| Lookup.YcsbEval | benchs/ycsb/eval_c.hh:65-130 | so does the YCSB client's, with one batch of at most ten pages, calling the tree exactly if there are more |
| Lookup.FewPages | benchs/data_dist/eval_c.hh:83-109 | for a stored key there is a page to search, and errors that are w pages apart mean w + 1 pages at most |
| Lookup.ExactNeverAsks | benchs/data_dist/eval_c.hh:103-109 | with a function that predicts every label, a lookup searches one page or two and never calls the tree |
| Deployment.PoolReadable | benchs/data_dist/server/main.cc:77-81 | leaves from the pool have addresses of their own and can be read remotely |
| Deployment.Load | benchs/data_dist/server/db.hh:172 | inserting pairs of new keys one after the other is a run of inserts, so what holds of runs holds of the loaded tree |
| Deployment.TableStorable | xcache/src/translation_table.hh:66-74 | the entries of a trained table fit into the image's words |
| Deployment.TrainAndLookup | benchs/data_dist/client.cc:284-325 | train, write the image, parse it, look up: this succeeds exactly if models, padding and trained tables fit, which they do if every table has room for all leaves, and then the result is the tree's get, for every tree in a pool, any learned functions and any place of the image |
| Deployment.YcsbTrainAndLookup | benchs/ycsb/client.cc:222-257 | the same for the YCSB server and client, for learned functions that do not fall, at least four slots a leaf, and models that end at a multiple of 8 |
| Deployment.EntryTells | xcache/src/translation_table.hh:37-53 | with fewer than 256 splits since, an entry's tag matches exactly if the leaf has not split, and then every cached key is where it was |
| Versioned.StepOk | xcomm/src/atomic_rw/wrapper_type.hh:53-76 | every store of the writer and every load of a reader keeps what is known of the object and of all copies |
| Versioned.ReadsOneWrite | xcomm/src/atomic_rw/mod.hh:30-52 | in every interleaving, a read that passes the check returns exactly the payload of one completed write, the latest when the read began, if fewer than 2^32 writes completed during it |
| Versioned.QuietRead | xcomm/src/atomic_rw/mod.hh:30-52 | in every run, a read begun on an idle object and not disturbed by the writer ends with the latest payload; it is returned, not retried, if and only if the number of payloads so far is not a multiple of 2^32 |
| Versioned.QuietReadEnds | xcomm/src/atomic_rw/mod.hh:30-52 | from every reachable state with an idle object such a read comes to its end |
| Versioned.WrapTears | xcomm/src/atomic_rw/wrapper_type.hh:53-55 | with 2^32 writes during one read of any payload of two words or more, there is a run in which a torn copy passes |
| Versioned.SafeIff | xcomm/src/atomic_rw/wrapper_type.hh:53-55 | reads with at most w writes during them are safe in all runs if and only if w is below 2^32, for every payload of two words or more |
| Versioned.RetriesNeverAdd | xcomm/src/atomic_rw/mod.hh:29-49 | the retry counter never gets beyond one |
| Versioned.WrappedType.BeginWrite | xcomm/src/atomic_rw/wrapper_type.hh:61-67 | stores the invalid number, first to seq_check, then to seq, and nothing else |
| Versioned.WrappedType.DoneWrite | xcomm/src/atomic_rw/wrapper_type.hh:70-76 | stores the next number, first to seq, then to seq_check: one more write is complete |
| LockElision.GoElsewhere | xutils/rtm.hh:30-43 | an operation that has not touched what others write would have run the same after those writes |
| LockElision.StepOk | xutils/rtm.hh:30-89 | every step keeps: the log is serial, one holder, no running transaction beside it |
| LockElision.Serializable | xkv_core/src/xtree_con.hh:29-70 | in every run the finished operations returned what they return one after the other in commit order, and the memory is what they leave |
| LockElision.Linearizes | xkv_core/src/xtree_con.hh:29-70 | if get and insert alone do what they should to a table of pairs, on memories that make sense and for keys that callers may insert, then in commit order the memory is the table with the pairs inserted so far and every get answers from it |
| LockElision.ConcurrentTable | xkv_core/src/xtree_con.hh:29-70 | so does every state of every concurrent run |
| Programs.EntryEnds | xutils/rtm.hh:30-89 | an operation of the log that runs a program left the memory and returned the result that the program does when run alone |
| FlatTree.NodeHasRoom | xkv_core/src/xtree/inner_node.hh:99-124 | with fewer than n * (n / 2) + n pairs, a full leaf means that the one inner node is not full |
| FlatTree.LeafSplits | xkv_core/src/xtree/inner_node.hh:80-124 | a leaf's split turns separators and leaves into a sound tree with the new pair |
| OneNode.SplitOk | xkv_core/src/xtree/xnode.hh:205-240 | cell by cell, a split leaves leaf and candidate as the page functions say |
| OneNode.InsertSepOk | xkv_core/src/xtree/inner_node.hh:151-160 | cell by cell, the node takes the separator and the child right of it |
| OneNode.GetOk | xkv_core/src/xtree/mod.hh:31-40 | cell by cell, a get answers from the table that the tree in memory stands for, and changes nothing |
| OneNode.InsertOk | xkv_core/src/xtree/mod.hh:87-127 | cell by cell, an insert of an absent key adds its pair to that table, whether its leaf has room or splits |
| OneNode.EmptyHolds | xkv_core/src/xtree/mod.hh:87-95 | there is a memory to start from: it stands for the empty table |
| OneNode.NodeLinearizes | xkv_core/src/xtree_con.hh:29-70 | gets and inserts of absent keys on a tree with one inner node, from any threads, leaf splits and new separators included, behave as if run one after the other on a table |
| LockElision.NoCommitWhileHeld | xutils/rtm.hh:36-43 | no transaction commits while a thread is in the fallback section |
| LockElision.OnlyHolderUnlocks | xutils/rtm.hh:80-89 | only the one holder releases the lock |
| LockElision.RunPatient | xutils/rtm.hh:44-77 | the abort counters stay within their limits plus one, and within them while transactions are tried |
| LockElision.TakesLockWhen | xutils/rtm.hh:44-77 | a thread turns to the lock exactly after one nested abort, one without a reason, two for capacity or eleven for conflicts; the code 0x73 makes it wait until the lock is free first |
| LockElision.AbortsExactly | xutils/rtm.hh:36-43 | a step aborts just those transactions that have touched what it writes visibly, and all when the lock is taken or released |
| LockElision.NobodyStuck | xutils/rtm.hh:30-89 | in every reachable state a thread can go on unless it waits for the lock and another thread holds it |
| LockElision.BusyRetries | xutils/rtm.hh:37-59 | finding the lock taken moves no counter that has a limit and does not wait |
| LockElision.BothIncrement | xutils/rtm.hh:30-89 | there is a run in which a thread that took the lock aborts a transaction that had read, finishes first, and neither update is lost |
| Image.DecEnc | xutils/marshal.hh:44-74 | fixed-size encoding and decoding keep every number that fits |
| Image.IntRoundTrip | x_ml/src/xmodel.hh:69-103 | encoding and decoding keep every signed 32-bit integer |
| Image.EncFour | xutils/marshal.hh:44-74 | four bytes, the lowest first |
| Image.EncEight | xutils/marshal.hh:44-74 | eight bytes, the lower four first |
| Image.SubFields | x_ml/src/xmodel.hh:69-103 | in the bytes of a model: the upper error, the lower error, the cap, the learned parameters |
| Image.RoundUpLeast | benchs/data_dist/server/db.hh:452-458 | rounding up gives the only multiple of 8 among the next 8 addresses |
| Image.MaskRoundsUp | benchs/data_dist/server/db.hh:452-458 | the mask on 64-bit words gives the multiple of 8 among the next 8 addresses |
| Image.SerializeDb | benchs/data_dist/server/db.hh:460-487 | writes models, padding and tables, and fails exactly when they do not fit |
| Image.ParseSubs | benchs/data_dist/client.cc:284-296 | the models come out as they went in |
| Image.ParseTables | benchs/data_dist/client.cc:301-321 | reads table after table as each announces its length, and stops where the bytes end too early |
| Image.TablesBack | benchs/data_dist/client.cc:301-321 | from the bytes of tables the same tables come out, and the cursor ends at the end of the image |
| Image.Bootstrap | benchs/data_dist/client.cc:284-325 | parsing what was written gives the same models and tables and ends at the end, for every start address |
| Image.YcsbBootstrap | benchs/ycsb/client.cc:222-257 | the YCSB client gets the models, and as tables what lies right behind them |
| Image.UnskippedExact | benchs/ycsb/client.cc:236-252 | these are the server's tables, whatever the padding holds, exactly if the models end at a multiple of 8 |
| Rpc.HeaderRoundTrip | xcomm/src/rpc/proto.hh:39-49 | a header arrives as it was set exactly if every field fits its bits: 2, 5, 18 and 7 of them, from the lowest up |
| Rpc.MessageRoundTrip | xcomm/src/rpc/op.hh:91-97 | a message is received as it was built exactly if its header fits |
| Rpc.ReceivesWhole | xcomm/src/rpc/mod.hh:110-116 | the length check fails exactly if less has arrived than the header announces |
| Rpc.RPCOp.Add | xcomm/src/rpc/op.hh:73-89 | arguments are appended, refused exactly when the buffer is too small |
| Rpc.RPCOp.Finalize | xcomm/src/rpc/op.hh:91-97 | the header gets the length of what was appended |
| Rpc.ReplyStation.AddPendingReply | xcomm/src/rpc/reply_station.hh:50-58 | refused exactly while a reply is pending |
| Rpc.ReplyStation.AppendReply | xcomm/src/rpc/reply_station.hh:68-83 | refused exactly when none is pending, else appended and counted down |
| Rpc.StepOk | xcomm/src/rpc/mod.hh:101-150 | from every reachable state no step fails, and what is known of coroutines and messages is kept |
| Rpc.NothingFails | xcomm/src/rpc/mod.hh:128-135 | with at most 128 coroutines no assertion about replies fails in any run without loss or duplication |
| Rpc.Conserved | xcomm/src/rpc/reply_station.hh:20-84 | pending replies are 0 or 1 and equal the coroutine's requests and replies on their way |
| Rpc.OwnAnswer | benchs/data_dist/eval_c.hh:51-68 | a coroutine is resumed only with the answer to its own latest request |
| Rpc.NobodyStuck | xcomm/src/rpc/mod.hh:101-150 | in every reachable state there is a next step for every coroutine: to issue, to have its own message served or delivered, or to be resumed, after which it can issue again |
| Rpc.CallReturns | benchs/data_dist/eval_c.hh:45-68 | from every reachable state a running coroutine can call, and runs again with the answer to that request |
| Rpc.TooManyCoroutines | xcomm/src/rpc/proto.hh:39-43 | the first call of coroutine 128 runs into its assertion |

## Left out

- RDMA verbs, queue pairs, connections, huge pages and transports: foreign calls. A remote read of a leaf is an atomic copy of a leaf that does not change.
- Training algorithms and floating point: learned functions are arbitrary functions to exact reals, and opaque bytes of a fixed size in the image.
- Rmi.Dispatch: computes in exact reals, so it says nothing about the rounding of doubles; the number of keys it divides by is a parameter, not the count of `Dispatcher::train`.
- SubModel.ToInt: a prediction outside the range of `int` is undefined in C++ and becomes the smallest `int` here, as on x86; nothing but one clause of `SubModel.PredictsLabel` and the results about monotone functions depends on it.
- Trainer.LabelsFit: labels of 2^30 and more are excluded; beyond that `p + err_max` in `get_predict_range` can overflow an `int`, and from 2^31 on labels are truncated.
- Lookup.CoreEval: in the branch for wide ranges it calls the tree; that the exchange of messages leads to the same answer is stated apart, in `Deployment.MessageAnswers`. The local buffer has room for 200 pages, reads do not fail, and the tree does not change between training and lookup; a failed assertion is the result `Aborted`.
- Deployment.TrainAndLookup: the learned parameters are bytes of a fixed size that are assumed to give back the function they were made from (`Deployment.Exact`); the total size is not cut to the 32 bits of the reply that announces it.
- Versioned.Load: readers copy 4-byte cells, the program 8-byte words of a packed object; every word-wise interleaving is one of the cell-wise ones. Memory order is that of the program.
- Versioned.WrappedType: the copying loop of a reader is the step system's loads; a reader that writes keep disturbing may retry for ever.
- LockElision.Do: operations are arbitrary deterministic programs over memory cells; fairness, weak memory and allocation inside transactions are left out.
- OneNode.NodeLinearizes: written out in cells is a tree with one inner node until that is full; for deeper trees, that get and insert alone implement a table is the hypothesis of `LockElision.ConcurrentTable`. The new leaf is the next one of the memory, not the thread's own; incarnations and links between leaves have no cells.
- Rpc.Do: one server, messages are neither lost nor duplicated; sessions and connect messages are left out.
- XTree.XTree.InsertFirst: the program passes the blank candidate as its own candidate; since a blank leaf does not split, the model passes none.
- TreeIter.LeafCursor: both iterators in one class, told apart by a flag; the optional sequence check of the keys (`XNODE_KEYS_ATOMIC`) is left out.
- Samplers.Sampler: the program's template parameter is a field.
- Variable-length values, `core_eval_v`, `value_update` of stored keys, sizes of inner nodes (`sz_inner_impl`), `num_keys` and `max_key`: they would only add easy members.
- The second pass of verbose training, dumps, statistics, watermarks under concurrent updates, `XArray`: not part of the results above.
- Key types other than a total order on 64-bit integers.
