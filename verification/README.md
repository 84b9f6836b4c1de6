# Verified models of the robot stack

Dafny models of the algorithms in this repository that work on unbounded inputs, with proofs about
them.  `dafny verify dfyconfig.toml` checks the whole project; one module per file.

| module | what it models |
|---|---|
| `FrameSync` | the synchroniser of image streams: a greedy merge of columns of stamps that renames and deletes image files while it runs |
| `Extraction` | the threads that extract images from a recording: one producer, many consumers, a bounded queue and a shutdown event, as interleaved steps; and the table of stamps that the synchroniser reads |
| `PromptTree`, `PromptParser`, `TreeStructure` | prompts such as `[a face [an eye]](a dog, a cat)`: their grammar, the one-pass parser with two stacks as a state machine, the same parser over shared mutable nodes, and the structure of the trees it builds |
| `TreePredictor`, `TreeDecoding`, `TreeDetections` | the worklist that runs detectors and classifiers along a prompt tree, what its buffers hold of their results, and the merge of the results of all labels |
| `OwlPredictor` | the padded squares and masks of regions of interest, the thresholds of a decoded image, the batches of the encoder |
| `DetectionText`, `Labels`, `NanoOwlNode`, `Text`, `Wrappers` | the text protocol of detections: the node that prints it, the two independent parsers, and what normalised labels are; strings and values that may be absent |
| `SceneManager`, `SceneDecision` | the timed phases that decide between an indoor and an outdoor scene, and the decision told from the messages of the probes |
| `Tracing` | the converter lock and the stack of device types while a network is traced |
| `ShapeTracing`, `SliceLowering`, `Division` | traced integers that carry a runtime graph, and the slices and divisions lowered to network layers |
| `Flattener`, `FlattenOrder` | nested containers numbered, flattened and rebuilt, and the order of the flattened list |
| `Profile` | the optimisation profile inferred from a dataset |
| `Base64` | the base64 decoder of the image demo |

Code that works step by step is modelled by methods with loops, on classes where the source updates
objects and on arrays where it fills buffers.  Each such method is proved equal to a function of its
inputs or of the old state, or to meet a property stated outright; the lemmas are about those
functions.

Where the models meet, the promises of one are the assumptions of the next: a complete extraction
provides the files and the table that the synchroniser needs, every tree from the parser is one the
predictor accepts, decoded images have the labels and input indices the predictor relies on, the
labels of a query survive both parsers of the text protocol, and slices are lowered to the numbers
that `SliceLowering` compares with what the traced program takes.

## What the code does differently from what one would expect

The models follow the code.  Each point below is a lemma.

- The synchroniser tests its front for nan to notice the end of a stream, but streams are padded with
  -1.  A padded entry is kept out of the result only because real stamps are at least the
  threshold away from -1; `PaddingMatchesIff` says exactly when it is not.
- The comment over the clean-up speaks of removing the leftover images.  Images that were skipped
  during the merge can survive it (`SkippedImageSurvives`), and `TopicIsExactIff` says when none does.
- The directory of a topic whose name has no slash is the name without its last character
  (`TopicDirWithoutSlash`).
- Consumers can stop while frames are still queued (`EarlyEmptyLosesFrame`): a consumer may find the
  queue empty before the producer's last frames and see the event after them.  Nothing is
  lost exactly when some consumer looks at the empty queue after the last put (`CompleteIff`).
- A wrapped call whose converter is not real, but makes wrapped calls itself, would return nothing,
  because the inner calls clear the shared return value.  No converter of the repository does that:
  those that are not real print a warning or do nothing.  It takes a converter registered from outside
  (`OutsideConverterLosesOutput`); `AnswersAreProperIff` is the exact condition.
- The sign trick of the lowered integer quotient divides zero by zero when the dividend is zero
  (`LoweredQuotientIsDefinedIff`).
- Negative numbers of a lowered slice are made positive after the size was computed, so with a unit
  step a negative start with a stop from the front asks for too many elements (`UnitSliceIff`).
- The legacy batch size replaces the first extents of the inferred bounds, and the typical shapes can
  then lie outside the profile (`BatchProfileAdmitsIff`).
- The two parsers of the text protocol disagree on a closing bracket inside a label: only the scene
  manager tolerates it (`ControllerRoundTripIff`, `SceneRoundTripIff`).
- The base64 decoder takes every text whose length is a multiple of four, and reads what is outside the
  alphabet as zero (`EncodeInvertsDecodeIff`); for other lengths of two or more it has no defined result.

## Model

| member | source | states |
|---|---|---|
| `FrameSync.ArgMin` | src/isaac_ros_common/isaac_ros_rosbag_utils/isaac_ros_rosbag_utils/rosbag_edex_extraction.py:131 | the first position of the smallest front stamp |
| `FrameSync.ArgMax` | src/isaac_ros_common/isaac_ros_rosbag_utils/isaac_ros_rosbag_utils/rosbag_edex_extraction.py:132 | the first position of the largest front stamp |
| `FrameSync.StepShrinks` | src/isaac_ros_common/isaac_ros_rosbag_utils/isaac_ros_rosbag_utils/rosbag_edex_extraction.py:123-147 | both turns of the loop leave fewer cells of the table to pass, and never move a front back: the loop ends |
| `FrameSync.GuardIsMatch` | src/isaac_ros_common/isaac_ros_rosbag_utils/isaac_ros_rosbag_utils/rosbag_edex_extraction.py:133 | largest minus smallest front stamp is below the threshold exactly when every pair of the row's stamps is |
| `FrameSync.PaddingMatchesIff` | src/isaac_ros_common/isaac_ros_rosbag_utils/isaac_ros_rosbag_utils/rosbag_edex_extraction.py:127-133 | the test for nan never fires because the padding is -1, so a row with padding passes the guard exactly when the threshold is positive and every real stamp of the row is within it of -1 |
| `FrameSync.TopicDirIsRelative` | src/isaac_ros_common/isaac_ros_rosbag_utils/isaac_ros_rosbag_utils/rosbag_image_extraction.py:39-47 | the directory of a topic is its name up to the last slash, without the slashes in front: it is relative and stays in the image tree |
| `FrameSync.TopicDirWithoutSlash` | src/isaac_ros_common/isaac_ros_rosbag_utils/isaac_ros_rosbag_utils/rosbag_image_extraction.py:39-47 | a topic without a slash loses its last character |
| `FrameSync.MatchedRowsAreReal` | src/isaac_ros_common/isaac_ros_rosbag_utils/isaac_ros_rosbag_utils/rosbag_edex_extraction.py:127-142 | with stamps at least the threshold away from -1, no padding entry ever enters a matched row |
| `FrameSync.GreedyIsChain` | src/isaac_ros_common/isaac_ros_rosbag_utils/isaac_ros_rosbag_utils/rosbag_edex_extraction.py:123-147 | the frames of a run from any front are matched rows, strictly increasing in every stream, and lie before the final front, which has left the table |
| `FrameSync.SpreadOnlyGrows` | src/isaac_ros_common/isaac_ros_rosbag_utils/isaac_ros_rosbag_utils/rosbag_edex_extraction.py:130-147 | when the front does not match, any later matched row of real stamps has passed the smallest front stamp |
| `FrameSync.SkippedEntryIsUseless` | src/isaac_ros_common/isaac_ros_rosbag_utils/isaac_ros_rosbag_utils/rosbag_edex_extraction.py:146-147 | the entry that a skip drops is in no candidate synchronisation from this front: the exchange step |
| `FrameSync.GreedyStaysAhead` | src/isaac_ros_common/isaac_ros_rosbag_utils/isaac_ros_rosbag_utils/rosbag_edex_extraction.py:123-147 | from any front the run is at least as long as every candidate synchronisation and each of its rows comes no later |
| `FrameSync.SynchronizationIsOptimal` | src/isaac_ros_common/isaac_ros_rosbag_utils/isaac_ros_rosbag_utils/rosbag_edex_extraction.py:106-147 | the run from the start is the earliest and longest of all sequences of matched rows that strictly increase in every stream, and holds no padding |
| `FrameSync.EarliestLongestIsUnique` | src/isaac_ros_common/isaac_ros_rosbag_utils/isaac_ros_rosbag_utils/rosbag_edex_extraction.py:106-147 | only one sequence has that property, so it determines the result |
| `FrameSync.RenameExtends` | src/isaac_ros_common/isaac_ros_rosbag_utils/isaac_ros_rosbag_utils/rosbag_edex_extraction.py:134-141 | renaming the next matched image to the next frame number finds its source unharmed, keeps the files renamed before, and touches no other directory |
| `FrameSync.ImageStore.Rename` | src/isaac_ros_common/isaac_ros_rosbag_utils/isaac_ros_rosbag_utils/rosbag_edex_extraction.py:141 | the content moves to the new name and the old name is gone, unless both are the same |
| `FrameSync.ImageStore.UnlinkIfPresent` | src/isaac_ros_common/isaac_ros_rosbag_utils/isaac_ros_rosbag_utils/rosbag_edex_extraction.py:156 | removes one file if it is there |
| `FrameSync.OneMoreRename` | src/isaac_ros_common/isaac_ros_rosbag_utils/isaac_ros_rosbag_utils/rosbag_edex_extraction.py:135-142 | between two renames of one row the topics done have their file, the others still their old one |
| `FrameSync.RenameRow` | src/isaac_ros_common/isaac_ros_rosbag_utils/isaac_ros_rosbag_utils/rosbag_edex_extraction.py:134-142 | all images of a row get the next frame number and its stamps are appended to the columns |
| `FrameSync.RemoveLeftovers` | src/isaac_ros_common/isaac_ros_rosbag_utils/isaac_ros_rosbag_utils/rosbag_edex_extraction.py:149-156 | exactly the files from the front to the end of the table are removed, in every topic's directory and nowhere else |
| `FrameSync.MatchFrames` | src/isaac_ros_common/isaac_ros_rosbag_utils/isaac_ros_rosbag_utils/rosbag_edex_extraction.py:116-147 | the loop on the mutable store: frames, stamps and files agree with the run when one stream is exhausted |
| `FrameSync.SynchronizeImages` | src/isaac_ros_common/isaac_ros_rosbag_utils/isaac_ros_rosbag_utils/rosbag_edex_extraction.py:106-161 | the whole synchroniser: optimal frames, their stamps in the table, the exact final content of every directory, and which images are left beside the frames, told from the streams and the frames; directories are those of TopicDirIsRelative |
| `FrameSync.FramesEndInPlace` | src/isaac_ros_common/isaac_ros_rosbag_utils/isaac_ros_rosbag_utils/rosbag_edex_extraction.py:133-161 | at the end file k of every topic is the original image of the cell that row k of the synced table came from, for every k below the frame count |
| `FrameSync.UnmatchedRunPasses` | src/isaac_ros_common/isaac_ros_rosbag_utils/isaac_ros_rosbag_utils/rosbag_edex_extraction.py:123-147 | a run without matches passes exactly the images that no stream ends before, by stamp and then by topic |
| `FrameSync.FrontPassesIff` | src/isaac_ros_common/isaac_ros_rosbag_utils/isaac_ros_rosbag_utils/rosbag_edex_extraction.py:123-147 | the final front told from the streams and the frames: what comes before the last match, and after it what no stream ends before |
| `FrameSync.LeftoverIff` | src/isaac_ros_common/isaac_ros_rosbag_utils/isaac_ros_rosbag_utils/rosbag_edex_extraction.py:149-156 | what the clean-up leaves beside the frames, told from the streams and their earliest longest chain: exactly the skipped images that it does not reach, under their own numbers |
| `FrameSync.DirectoryIsExactIff` | src/isaac_ros_common/isaac_ros_rosbag_utils/isaac_ros_rosbag_utils/rosbag_edex_extraction.py:149-156 | for any files before: a directory ends with exactly the matched frames if and only if every other file it had is a matched one or lies from the front to the end of the table |
| `FrameSync.TopicIsExactIff` | src/isaac_ros_common/isaac_ros_rosbag_utils/isaac_ros_rosbag_utils/rosbag_edex_extraction.py:149-156 | for every topic of a run: its directory ends with exactly the matched frames if and only if none of its real images survives, with the condition in terms of the streams and the earliest longest chain |
| `FrameSync.SkippedImageSurvives` | src/isaac_ros_common/isaac_ros_rosbag_utils/isaac_ros_rosbag_utils/rosbag_edex_extraction.py:149-156 | a family of two-stream inputs in which a skipped image survives the clean-up |
| `PromptTree.AfterGroup` | src/nanoowl/nanoowl/tree.py:110-139 | reading a bracket group from any state adds the nodes, label numbers and labels that the recursive definition gives the group, and restores both stacks |
| `PromptTree.AfterMore` | src/nanoowl/nanoowl/tree.py:140-145 | a comma enters the next alternative with the next number, as an output of the open node |
| `PromptTree.RunBody` | src/nanoowl/nanoowl/tree.py:108-147 | from any state, reading the printed form of a body has the effect defined by recursion over the body |
| `PromptTree.RunAlts` | src/nanoowl/nanoowl/tree.py:108-147 | the same for the alternatives of a group with its closing bracket |
| `PromptTree.ParseInvertsPrint` | src/nanoowl/nanoowl/tree.py:99-159 | parsing the printed form of a well-formed prompt gives exactly the tree the prompt means: same nodes, numbering and stripped labels |
| `PromptTree.PromptOfFour` | src/nanoowl/nanoowl/tree.py:99-159 | for any texts s, t, u and v, the prompt [s[t]](u,v) is a detection of s in the image, one of t in label 1, and a classification of the image into labels 3 and 4, with the stripped texts as labels |
| `PromptTree.AcceptedTextIsPrinted` | src/nanoowl/nanoowl/tree.py:108-153 | a text that leads from a state to no open bracket is the rest of a well-formed prompt, with the brackets of the state closed in order |
| `PromptTree.ParsesIffWellFormed` | src/nanoowl/nanoowl/tree.py:99-159 | the parser succeeds exactly on prompts balanced in both bracket kinds with every comma inside a bracket |
| `PromptParser.TreeNode.Append` | src/nanoowl/nanoowl/tree.py:113 | adds an output to a node that both the stack and the list of nodes refer to |
| `PromptParser.Reader.OpenBracket` | src/nanoowl/nanoowl/tree.py:110-117 | the loop's branch for an opening bracket, on shared node objects, is the step of the state machine |
| `PromptParser.Reader.CloseBracket` | src/nanoowl/nanoowl/tree.py:118-139 | the branch for a closing bracket, with its two errors |
| `PromptParser.Reader.NextAlternative` | src/nanoowl/nanoowl/tree.py:140-145 | the branch for a comma, which changes a node through the stack; an empty node stack is an error |
| `PromptParser.Reader.AddText` | src/nanoowl/nanoowl/tree.py:146-147 | the branch for text |
| `PromptParser.ReadChar` | src/nanoowl/nanoowl/tree.py:108-147 | one turn of the loop is one step of the state machine, error for error |
| `PromptParser.Conclude` | src/nanoowl/nanoowl/tree.py:149-159 | the errors for a bracket left open, and the tree; the duplicate check of the constructor is never reached |
| `PromptParser.FromPrompt` | src/nanoowl/nanoowl/tree.py:99-159 | the program on mutable nodes returns what the state machine returns, for every text |
| `TreeStructure.BodyLists` | src/nanoowl/nanoowl/tree.py:108-157 | every label number of a body is listed exactly once among the outputs of its nodes, and no other number is |
| `TreeStructure.TreesAreTidy` | src/nanoowl/nanoowl/tree.py:108-157 | in the tree of a prompt each label from 1 is an output of exactly one node, every output exceeds its node's input, and inputs are labels |
| `TreeStructure.ParsedTreesAreTidy` | src/nanoowl/nanoowl/tree.py:99-159 | so it is in every tree the parser returns |
| `TreeStructure.RecordOutputs` | src/nanoowl/nanoowl/tree.py:87-90 | the inner loop stops at the first output that is already known |
| `TreeStructure.BuildLabelIndexToNodeMap` | src/nanoowl/nanoowl/tree.py:84-91 | reports a duplicate exactly when a label is listed twice, and else maps each label to the node that has it |
| `TreeStructure.GetLabelDepth` | src/nanoowl/nanoowl/tree.py:209-215 | terminates, with the number of nodes on the way to a label without one |
| `TreeStructure.DepthIsNesting` | src/nanoowl/nanoowl/tree.py:209-215 | the depth of a label is its bracket nesting in the prompt |
| `TreePredictor.Mask` | src/nanoowl/nanoowl/tree_predictor.py:153 | the positions where a label vector equals an output, in order |
| `TreePredictor.FindNodes` | src/nanoowl/nanoowl/tree.py:200-207 | the nodes with an input and an operator, each once and in order |
| `TreePredictor.DetectBufferHolds` | src/nanoowl/nanoowl/tree_predictor.py:147-158 | every instance in a detect output is one of the boxes found, with its fresh id and with the parent it was found in |
| `TreePredictor.DetectBufferIsComplete` | src/nanoowl/nanoowl/tree_predictor.py:147-158 | every box found is in the output it chose |
| `TreePredictor.ClassifyBufferHolds` | src/nanoowl/nanoowl/tree_predictor.py:178-184 | a classify output holds exactly the input's instances sorted into it, with the same id, box and parent and the new score |
| `TreePredictor.DetectKeepsInv` | src/nanoowl/nanoowl/tree_predictor.py:128-158 | decoding a detect node keeps the invariant: ids are below the counter, each id has exactly one home label, parents are smaller ids |
| `TreePredictor.ClassifyKeepsInv` | src/nanoowl/nanoowl/tree_predictor.py:160-184 | decoding a classify node keeps it: no id is created, copies agree with their source |
| `TreePredictor.NodeStepsKeepInv` | src/nanoowl/nanoowl/tree_predictor.py:128-184 | so do all nodes of a label, and the label's own buffer is not overwritten on the way |
| `TreePredictor.NonEmptyOutputsHold` | src/nanoowl/nanoowl/tree_predictor.py:186-194 | the labels queued are the non-empty outputs of the visited nodes, each once |
| `TreePredictor.NodesOfLabel` | src/nanoowl/nanoowl/tree_predictor.py:114-117 | the nodes of a label not yet visited have not been decoded before |
| `TreePredictor.VisitKeeps` | src/nanoowl/nanoowl/tree_predictor.py:113-194 | one turn of the worklist keeps the invariant, and the label popped was never popped before |
| `TreePredictor.DecodeDetectNode` | src/nanoowl/nanoowl/tree_predictor.py:129-158 | the loop over outputs is the detect step |
| `TreePredictor.DecodeClassifyNode` | src/nanoowl/nanoowl/tree_predictor.py:160-184 | the loop over outputs is the classify step |
| `TreePredictor.DecodeNodes` | src/nanoowl/nanoowl/tree_predictor.py:128-184 | the loop over the nodes of a label |
| `TreePredictor.VisitLabel` | src/nanoowl/nanoowl/tree_predictor.py:113-194 | the body of the worklist loop |
| `TreeDetections.Record` | src/nanoowl/nanoowl/tree_predictor.py:199-214 | one entry of the merge creates a detection or extends it |
| `TreeDetections.MergeDetections` | src/nanoowl/nanoowl/tree_predictor.py:196-214 | the merged dictionary has one detection for each id that occurs, with all its labels and scores in order |
| `TreeDetections.NextEntryFits` | src/nanoowl/nanoowl/tree_predictor.py:197-214 | the next copy of an instance met by the merge is a classification of an earlier one and has the same box and parent |
| `TreeDetections.EntriesFormHistory` | src/nanoowl/nanoowl/tree_predictor.py:152-184 | for every id the entries of the final state start at the label that created it, and every later one is a classify output whose input is an earlier label of the list; each label occurs once |
| `TreeDetections.HistoryIsPromised` | src/nanoowl/nanoowl/tree_predictor.py:196-214 | the detection of such a history has the promised form |
| `TreeDetections.MergedIsPromised` | src/nanoowl/nanoowl/tree_predictor.py:109-214 | the detection ids are exactly 0 to one less than the counter, each once, id 0 is the image with parent -1, and every other parent is a smaller id: one tree rooted at the image |
| `TreeDetections.VisitedAreLabels` | src/nanoowl/nanoowl/tree_predictor.py:111-114 | only labels of the tree are queued, so the worklist ends |
| `TreeDecoding.DetectDecodes` | src/nanoowl/nanoowl/tree_predictor.py:116-158 | after a detect node, what model n returns for the boxes of the input label, in order, is in the buffers: result k in the output it chose, with its own box and score, the next free id plus k, and as parent the instance of the input that its index names; the outputs hold nothing else and no other label changes |
| `TreeDecoding.ClassifyDecodes` | src/nanoowl/nanoowl/tree_predictor.py:160-184 | after a classify node, instance k of the input is in the output chosen by result k, with the same id, parent and box and the score of result k; the outputs hold nothing else |
| `TreeDecoding.NodeStepsDecode` | src/nanoowl/nanoowl/tree_predictor.py:128-184 | so it is for all nodes of a label |
| `TreeDecoding.VisitDecodes` | src/nanoowl/nanoowl/tree_predictor.py:111-194 | and for all nodes of the labels visited so far, since no later step changes what the outputs hold |
| `TreeDetections.Predict` | src/nanoowl/nanoowl/tree_predictor.py:77-216 | for every tidy tree and every decode result of the right shape: terminates, visits each label with instances exactly once, and returns detections with the properties above; the outputs of every node of a visited label hold exactly what its model returned for the boxes of that label, each result with its own box, score and parent; every copy of an instance that any label got is in its detection with its score, and has the box and parent id of the detection, and the labels of an id form a history |
| `Extraction.Workers` | src/isaac_ros_common/isaac_ros_rosbag_utils/isaac_ros_rosbag_utils/rosbag_image_extraction.py:177-183 | as many threads as asked for, twice the processors for -1, and two when that is fewer |
| `Extraction.StepKeepsPutOnce` | src/isaac_ros_common/isaac_ros_rosbag_utils/isaac_ros_rosbag_utils/rosbag_image_extraction.py:125-129 | every numbered frame was put once or is in the producer's hand |
| `Extraction.StepKeepsConserved` | src/isaac_ros_common/isaac_ros_rosbag_utils/isaac_ros_rosbag_utils/rosbag_image_extraction.py:129-156 | no step of any thread loses or duplicates a frame: what was put is queued, held by one consumer, or saved |
| `Extraction.StepKeepsQueue` | src/isaac_ros_common/isaac_ros_rosbag_utils/isaac_ros_rosbag_utils/rosbag_image_extraction.py:129-153 | the queue is the last part of what was put, in order, and within its bound |
| `Extraction.EveryRunKeepsInv` | src/isaac_ros_common/isaac_ros_rosbag_utils/isaac_ros_rosbag_utils/rosbag_image_extraction.py:84-201 | all of this holds after every interleaving of the producer and any number of consumers |
| `Extraction.LostFramesAreTheQueue` | src/isaac_ros_common/isaac_ros_rosbag_utils/isaac_ros_rosbag_utils/rosbag_image_extraction.py:157-205 | when all consumers have stopped, what is lost is exactly what is still queued, which are the frames put last |
| `Extraction.CompleteIff` | src/isaac_ros_common/isaac_ros_rosbag_utils/isaac_ros_rosbag_utils/rosbag_image_extraction.py:84-205 | once all consumers have stopped, every frame put is saved if and only if some consumer looked at the empty queue after the last put; and the stamps are those of all decodable messages |
| `Extraction.LateStopMeansComplete` | src/isaac_ros_common/isaac_ros_rosbag_utils/isaac_ros_rosbag_utils/rosbag_image_extraction.py:157-161 | so it is in particular when some consumer stopped on an empty queue found after the event was set |
| `Extraction.EarlyEmptyLosesFrame` | src/isaac_ros_common/isaac_ros_rosbag_utils/isaac_ros_rosbag_utils/rosbag_image_extraction.py:157-161 | without that condition a frame can be lost: a concrete interleaving |
| `Extraction.ProducerIsNeverStuck` | src/isaac_ros_common/isaac_ros_rosbag_utils/isaac_ros_rosbag_utils/rosbag_image_extraction.py:129-156 | until shutdown some step other than a time-out is possible: the bounded queue does not deadlock |
| `Extraction.PadColumns` | src/isaac_ros_common/isaac_ros_rosbag_utils/isaac_ros_rosbag_utils/rosbag_image_extraction.py:137-140 | every column is filled with -1 to the length of the longest |
| `Extraction.PaddedTableIsExtracted` | src/isaac_ros_common/isaac_ros_rosbag_utils/isaac_ros_rosbag_utils/rosbag_image_extraction.py:137-142 | the padded table of non-decreasing clocks meets what the synchroniser assumes, and its unpadded cells are the frames |
| `Extraction.SavedFramesFeedSynchronizer` | src/isaac_ros_common/isaac_ros_rosbag_utils/isaac_ros_rosbag_utils/rosbag_image_extraction.py:126-142 | a complete extraction has written the files that the synchroniser renames |
| `DetectionText.CollectParts` | CARKit/src/ada/ada/scene_aware_query_manager.py:21-45 | the loop appends what each part reads as, and skips the parts that cannot be read |
| `DetectionText.CollectInSteps` | CARKit/src/ada/ada/reactive_behavior_controller.py:131-152 | reading entries and then dropping those without a depth is the controller's single loop |
| `DetectionText.DetectionsCallback` | CARKit/src/ada/ada/reactive_behavior_controller.py:125-154 | the candidates are the entries the controller reads that have a depth, in order; the point of each is as far from the left as from the right edge of its box and as far from the top as from the bottom, and its depth is the one there; there are none without a depth image |
| `DetectionText.ParseDetectionEntries` | CARKit/src/ada/ada/scene_aware_query_manager.py:21-45 | the scene manager's list of parsed entries |
| `DetectionText.ParsersAgree` | CARKit/src/ada/ada/reactive_behavior_controller.py:156-182 | on any text, an entry that the controller accepts is read by the scene manager with the same label and confidence |
| `DetectionText.EntryIsParsed` | CARKit/src/ada/ada/reactive_behavior_controller.py:156-182 | a printed entry is parsed back by the controller |
| `DetectionText.EntryIsSighted` | CARKit/src/ada/ada/scene_aware_query_manager.py:21-45 | a printed entry is parsed back by the scene manager |
| `DetectionText.MessageSplits` | src/ROS2-NanoOWL/ros2_nanoowl/nano_owl_py.py:166-168 | splitting a printed message gives its entries back |
| `DetectionText.NormalizeKeepsSeparators` | CARKit/src/ada/ada/reactive_behavior_controller.py:16-20 | normalising a label neither adds nor removes a separator of the protocol |
| `DetectionText.ControllerLabelsAreClean` | CARKit/src/ada/ada/reactive_behavior_controller.py:131-182 | no label the controller ever reads has a separator, whatever the message |
| `DetectionText.ControllerRoundTripIff` | src/ROS2-NanoOWL/ros2_nanoowl/nano_owl_py.py:157-168 | for every list of detections, the controller reads the message back, in order and with normalised labels, if and only if no label has ';', '[' or ']'; the empty list included; what a normalised label is say the lemmas of Labels |
| `DetectionText.SceneRoundTripIff` | src/ROS2-NanoOWL/ros2_nanoowl/nano_owl_py.py:157-168 | the scene manager reads it back if and only if no label has ';' or '[' |
| `DetectionText.DecimalReaderReadsPrinted` | CARKit/src/ada/ada/reactive_behavior_controller.py:170-171 | a reader of plain decimals meets what the round trips assume of Python's float |
| `DetectionText.UnitsAre` | src/ROS2-NanoOWL/ros2_nanoowl/nano_owl_py.py:164 | a printed number is its units divided by ten or by a hundred |
| `DetectionText.QueryLabelsAreCleanIff` | src/ROS2-NanoOWL/ros2_nanoowl/nano_owl_py.py:96-100 | the node's labels are not empty, and one of them has a separator if and only if the query has one between its outer brackets |
| `DetectionText.BracketsAreStripped` | src/ROS2-NanoOWL/ros2_nanoowl/nano_owl_py.py:97 | what is left of a query is the text between brackets at its ends, and has no bracket at its own |
| `Text.StripIsMiddle` | src/ROS2-NanoOWL/ros2_nanoowl/nano_owl_py.py:98 | stripping drops white space at both ends and leaves none there |
| `Labels.LowerIsAlphabet` | CARKit/src/ada/ada/reactive_behavior_controller.py:17 | lower case takes each capital to the letter at the same place of the alphabet |
| `Labels.NormalizedWords` | CARKit/src/ada/ada/reactive_behavior_controller.py:16-20 | words with any white space or underscores between them, and white space around, become the words in lower case with single blanks between them, without an article in front of others |
| `Labels.ArticleIsDropped` | CARKit/src/ada/ada/reactive_behavior_controller.py:16-20 | for every normal text s and every article w, the label "w s" becomes s; normal are non-empty texts without capitals, underscores, white space at the ends and white space inside other than single blanks |
| `Labels.NormalStays` | CARKit/src/ada/ada/reactive_behavior_controller.py:16-20 | a normal text without an article in front stays as it is |
| `Labels.NormalizedIsTidy` | CARKit/src/ada/ada/scene_aware_query_manager.py:10-14 | whatever the label, the result has no capital, no underscore and no run of white space |
| `Labels.NothingIsNormalized` | CARKit/src/ada/ada/scene_aware_query_manager.py:10-14 | white space alone leaves nothing |
| `NanoOwlNode.JoinPrintsEntries` | src/ROS2-NanoOWL/ros2_nanoowl/nano_owl_py.py:166-167 | joining the entries gives the message |
| `NanoOwlNode.Node.UpdateQueryCache` | src/ROS2-NanoOWL/ros2_nanoowl/nano_owl_py.py:96-101 | the cached labels are those of the new query |
| `NanoOwlNode.Node.QueryListenerCallback` | src/ROS2-NanoOWL/ros2_nanoowl/nano_owl_py.py:104-106 | after any message the cached labels are those of its query |
| `NanoOwlNode.Node.LegacyMessage` | src/ROS2-NanoOWL/ros2_nanoowl/nano_owl_py.py:131-168 | the loop that builds the message prints the boxes with the labels of the query |
| `NanoOwlNode.QueryListsLabels` | src/ROS2-NanoOWL/ros2_nanoowl/nano_owl_py.py:96-100 | a query that lists labels between brackets gives the node these labels, in order |
| `NanoOwlNode.BlankQueryAsksForPerson` | src/ROS2-NanoOWL/ros2_nanoowl/nano_owl_py.py:96-101 | a query with nothing but commas and white space between its outer brackets asks for a person |
| `NanoOwlNode.IntTextIsRead` | src/ROS2-NanoOWL/ros2_nanoowl/nano_owl_py.py:157-160 | the text of a label number without a label is that number |
| `NanoOwlNode.MessagesAreReadIff` | src/ROS2-NanoOWL/ros2_nanoowl/nano_owl_py.py:96-168 | from the query to the parsers: of all possible messages the controller reads every box back, in order, with the normalised label it refers to, its corners left, top, right and bottom, and its score, if and only if the query has no separator between its outer brackets, and then the scene manager reads the labels and scores back too |
| `SceneManager.SceneAwareQueryManager.constructor` | CARKit/src/ada/ada/scene_aware_query_manager.py:117-128 | starts in the startup phase, or locked when a scene is given |
| `SceneManager.SceneAwareQueryManager.TimerCallback` | CARKit/src/ada/ada/scene_aware_query_manager.py:157-181 | the tick on the node's fields is the step of the state machine |
| `SceneManager.SceneAwareQueryManager.DetectionsCallback` | CARKit/src/ada/ada/scene_aware_query_manager.py:145-155 | a message adds the confidences of the probe's labels to the running probe's score, and is ignored outside probes |
| `SceneManager.SceneAwareQueryManager.BeginProbe` | CARKit/src/ada/ada/scene_aware_query_manager.py:188-192 | enters a probe and publishes its query |
| `SceneManager.SceneAwareQueryManager.SelectSceneMode` | CARKit/src/ada/ada/scene_aware_query_manager.py:198-216 | locks the default mode when the scores are closer than the margin, and else indoor exactly when its score is larger |
| `SceneManager.SceneAwareQueryManager.LockSceneMode` | CARKit/src/ada/ada/scene_aware_query_manager.py:219-225 | locks and publishes mode and query |
| `SceneManager.FirstEnd` | CARKit/src/ada/ada/scene_aware_query_manager.py:167-181 | the first tick of a trace late enough to end a phase |
| `SceneManager.ProbeLasts` | CARKit/src/ada/ada/scene_aware_query_manager.py:145-181 | while a probe lasts only its own score grows, by the score of the messages of that stretch |
| `SceneManager.RunMatchesOutcome` | CARKit/src/ada/ada/scene_aware_query_manager.py:145-225 | for every trace in auto mode the machine ends as a function of the whole trace says: phases cut at the first late enough ticks, scores of the messages inside each probe, the choice by their margin |
| `SceneManager.PhasesAdvanceInOrder` | CARKit/src/ada/ada/scene_aware_query_manager.py:157-225 | each event keeps the phase or moves to the next of startup, indoor probe, outdoor probe, locked; a locked mode never changes |
| `SceneManager.PhasesBeginOnTime` | CARKit/src/ada/ada/scene_aware_query_manager.py:157-225 | under a monotone clock each phase begins no earlier than its delays add up to |
| `SceneManager.LocksNoEarlier` | CARKit/src/ada/ada/scene_aware_query_manager.py:157-225 | locks no earlier than the startup delay and two probe durations |
| `SceneManager.OnlyTheLockedModeIsPublished` | CARKit/src/ada/ada/scene_aware_query_manager.py:161-165 | every scene mode and final query ever published is the locked one |
| `SceneDecision.SumOne` | CARKit/src/ada/ada/scene_aware_query_manager.py:145-155 | an entry counts with its confidence exactly when its label is in the probe's set |
| `SceneDecision.SumConcat` | CARKit/src/ada/ada/scene_aware_query_manager.py:145-155 | the scores of messages add up |
| `SceneDecision.ScoreIsAdded` | CARKit/src/ada/ada/scene_aware_query_manager.py:145-155 | the indoor probe counts the indoor labels, the outdoor probe the outdoor ones |
| `SceneDecision.LockedModeIsChoice` | CARKit/src/ada/ada/scene_aware_query_manager.py:145-216 | for every trace in auto mode: a mode is locked if and only if the trace has the three ticks that end the phases, each the first late enough; then it is the default when the confidences added up in the two probe stretches are closer than the margin, and else indoor exactly when the indoor sum is larger |
| `SceneDecision.RunAnnounces` | CARKit/src/ada/ada/scene_aware_query_manager.py:157-225 | in every run the query published last is the one of the phase, and once a mode is locked both its query and the mode have been published |
| `SceneDecision.TickKeepsQueryFresh` | CARKit/src/ada/ada/scene_aware_query_manager.py:157-186 | after every tick behind the startup the query of the phase is younger than its period |
| `SceneDecision.RepublishedIff` | CARKit/src/ada/ada/scene_aware_query_manager.py:157-186 | within a phase the query is published again exactly at the ticks at which its period is over |
| `SceneDecision.ParsedLabelsAre` | CARKit/src/ada/ada/scene_aware_query_manager.py:17-18 | the labels of a list are its normalised items that are not empty |
| `SceneManager.ProbeLabelsAreDisjoint` | CARKit/src/ada/ada/scene_aware_query_manager.py:98-111 | the two label sets have nothing in common and no neutral label, and lose nothing else |
| `Tracing.UnshadowedAreFree` | src/torch2trt/torch2trt/torch2trt.py:246-250 | the converters run are exactly those of the calls without a real caller, each once, in order and on its own call's arguments |
| `Tracing.UnshadowedCall` | src/torch2trt/torch2trt/torch2trt.py:243-273 | the converters run for a call are those of the calls in its body, then its own unless it has a real caller, then those of the calls its converter makes |
| `Tracing.AnswersAreProperIff` | src/torch2trt/torch2trt/torch2trt.py:243-273 | over every tree of wrapped calls, each call gives back its method's output or what its converter replaced it with, if and only if no converter that runs for a call that is not real makes wrapped calls and leaves the output alone |
| `Tracing.QuietTreesKeepOutputs` | src/torch2trt/torch2trt/torch2trt.py:243-273 | trees in which the converters of calls that are not real make no wrapped calls, as those of the repository, keep all outputs |
| `Tracing.OutsideConverterLosesOutput` | src/torch2trt/torch2trt/torch2trt.py:264-273 | one call whose converter, registered from outside, loses its output |
| `Tracing.ConversionContext.Wrapper` | src/torch2trt/torch2trt/torch2trt.py:243-273 | over every finite tree of nested wrapped calls, also those inside converters: the converters that run are exactly those of calls without a real caller, once and on their own arguments; the lock afterwards is the lock before; and when no converter of a call that is not real makes wrapped calls, every call gives back its method's output or its converter's replacement |
| `Tracing.ConversionContext.Convert` | src/torch2trt/torch2trt/torch2trt.py:255-271 | the converter's part of a call that was not skipped |
| `Tracing.ConversionContext.RunAll` | src/torch2trt/torch2trt/torch2trt.py:243-273 | the same over a sequence of calls |
| `Tracing.ConversionContext.ModulePreHook` | src/torch2trt/torch2trt/torch2trt.py:401-408 | pushes the module, and its device when it has one |
| `Tracing.ConversionContext.ModulePostHook` | src/torch2trt/torch2trt/torch2trt.py:410-416 | pops the device only when its module ends |
| `Tracing.ConversionContext.RunItem` | src/torch2trt/torch2trt/torch2trt.py:401-430 | over every well-nested run of modules, repeated or recursive: each layer gets the device of the innermost annotated module around it or the default, and both stacks return to where they were |
| `Tracing.TopIsInnermost` | src/torch2trt/torch2trt/torch2trt.py:418-430 | the top of the device stack is the innermost annotated module |
| `Tracing.InnermostDecides` | src/torch2trt/torch2trt/torch2trt.py:418-423 | the device is that of the last annotated module of those entered, if there is one, and else the default |
| `Tracing.PlacementLaws` | src/torch2trt/torch2trt/torch2trt.py:395-423 | what a module places is what its items place, in order: a layer under the innermost module, on the device for all modules around it |
| `Flattener.Sorted` | src/torch2trt/torch2trt/flattener.py:22 | sorted keys: the same keys, each once, in order |
| `Flattener.LeqIsLexicographic` | src/torch2trt/torch2trt/flattener.py:22 | the order of the keys: a prefix comes first, and otherwise the first difference decides |
| `Flattener.SlotsAreConsecutive` | src/torch2trt/torch2trt/flattener.py:9-28 | the leaf numbers of a schema, in traversal order, are exactly the consecutive numbers from the start to the size: a bijection |
| `Flattener.SchemaFits` | src/torch2trt/torch2trt/flattener.py:59-74 | flattening a value with its own schema looks only at what is there and writes inside the list |
| `Flattener.WriteIsLocal` | src/torch2trt/torch2trt/flattener.py:59-69 | flattening any value that fits changes only the schema's own range of the shared list |
| `Flattener.ReadIsLocal` | src/torch2trt/torch2trt/flattener.py:76-93 | unflattening depends on that range only |
| `Flattener.FlattenInto` | src/torch2trt/torch2trt/flattener.py:59-69 | the recursive writes into the shared list, in place, are the function the laws are about |
| `Flattener.FlattenValue` | src/torch2trt/torch2trt/flattener.py:71-74 | a fresh list, filled |
| `Flattener.WriteThenRead` | src/torch2trt/torch2trt/flattener.py:59-93 | reading back what was written, inside any larger list |
| `Flattener.ReadThenWrite` | src/torch2trt/torch2trt/flattener.py:59-93 | writing back what was read, inside any larger list |
| `Flattener.UnflattenInvertsFlatten` | src/torch2trt/torch2trt/flattener.py:59-93 | unflatten of flatten is the value with its unselected leaves replaced by None |
| `Flattener.RoundTripIff` | src/torch2trt/torch2trt/flattener.py:59-93 | unflatten of flatten is the very same value if and only if every leaf of it is selected |
| `FlattenOrder.WritesLeaves` | src/torch2trt/torch2trt/flattener.py:59-69 | flattening puts the selected parts of a value, in traversal order, into the schema's range of the shared list |
| `FlattenOrder.FlatOfLeaf` | src/torch2trt/torch2trt/flattener.py:9-28 | a selected value is one entry, and another one that is no container leaves none |
| `FlattenOrder.FlatOfItems` | src/torch2trt/torch2trt/flattener.py:13-18 | the entries of a list or tuple are those of its items, from left to right |
| `FlattenOrder.FlatOfDict` | src/torch2trt/torch2trt/flattener.py:19-25 | the entries of a dictionary are those of its values by sorted keys |
| `Flattener.FlattenInvertsUnflatten` | src/torch2trt/torch2trt/flattener.py:59-93 | flatten of unflatten is the list, for every list of the schema's size |
| `Division.FloorIsUnique` | src/torch2trt/torch2trt/torch2trt.py:827-834 | the floor quotient is the one whose remainder has the divisor's sign |
| `Division.LoweredQuotientIsDefinedIff` | src/torch2trt/torch2trt/converters/native_converters.py:604-627 | the sign trick has a defined value exactly when neither operand is zero |
| `Division.LoweredQuotientTruncates` | src/torch2trt/torch2trt/converters/native_converters.py:604-627 | then it truncates towards zero, and the remainder of fmod has the sign of the dividend and is smaller than the divisor |
| `Division.TruncatedQuotientIsUnique` | src/torch2trt/torch2trt/converters/native_converters.py:609-612 | truncation is determined by that remainder |
| `Division.TruncationIsFloorIff` | src/torch2trt/torch2trt/converters/native_converters.py:1441-1483 | the two quotients, and the two remainders, agree exactly when the signs do or nothing is left over |
| `Division.LoweredModFollowsDivisor` | src/torch2trt/torch2trt/converters/native_converters.py:1468-1483 | the lowered operator % is defined exactly for divisors other than zero and has their sign |
| `SliceLowering.SizeIsRangeLengthIff` | src/torch2trt/torch2trt/converters/native_converters.py:659-671 | the computed size is the length of range(start, stop, step) exactly when the stop is less than a step before the start |
| `SliceLowering.RangeHasIff` | src/torch2trt/torch2trt/converters/native_converters.py:659-671 | the numbers of a range are those from its start on, below its stop, that are whole steps from the start |
| `SliceLowering.SlicesSplitAxis` | src/torch2trt/torch2trt/converters/native_converters.py:659-671 | for any bound, from the front, from the end or off the axis, the elements before it and those from it on are together the whole axis |
| `SliceLowering.TakesIff` | src/torch2trt/torch2trt/converters/native_converters.py:659-768 | for any bounds and any positive step, the network takes the elements the program takes if and only if the resolved size is the number of elements between the clamped bounds and, unless there are none, the resolved start is the clamped one |
| `SliceLowering.LoweredSliceIsSliceIff` | src/torch2trt/torch2trt/converters/native_converters.py:659-768 | for bounds from the front and in order, any positive step and any axis, the network takes the elements the program takes if and only if the slice is empty or its last element is on the axis |
| `SliceLowering.NegativeBoundsIff` | src/torch2trt/torch2trt/converters/native_converters.py:752-765 | for two negative bounds in order, if and only if the start is on the axis |
| `SliceLowering.UnitSliceIff` | src/torch2trt/torch2trt/converters/native_converters.py:659-768 | for unit steps and any two bounds whatever, the exact cases; a negative start with a stop from the front is never one of them |
| `ShapeTracing.EvalIsStable` | src/torch2trt/torch2trt/torch2trt.py:795-866 | adding layers does not change the value of a tensor |
| `ShapeTracing.ApplyIsResult` | src/torch2trt/torch2trt/torch2trt.py:809-868 | each operator is the operation on integers it stands for; the floor quotient is told by its remainder |
| `ShapeTracing.IntWrapper.Trt` | src/torch2trt/torch2trt/torch2trt.py:795-800 | the first use of a plain integer adds a constant; every wrapper of the program keeps its meaning |
| `ShapeTracing.Operate` | src/torch2trt/torch2trt/torch2trt.py:802-866 | for any operator and any run with other sizes, the new wrapper has the integer result (product, sum, difference or floor quotient) and a tensor that computes the operation in the run, and all other wrappers stand for what they did |
| `ShapeTracing.OperateWith` | src/torch2trt/torch2trt/torch2trt.py:803-845 | plain operands are wrapped first |
| `ShapeTracing.MakeIntWrapper` | src/torch2trt/torch2trt/torch2trt.py:871-875 | wrapped integers are kept, plain ones wrapped |
| `ShapeTracing.WrapExtent` | src/torch2trt/torch2trt/torch2trt.py:903-922 | the size of an axis stands for the size of the run |
| `ShapeTracing.DefaultsSplitAxis` | src/torch2trt/torch2trt/converters/native_converters.py:659-671 | the same for a traced slice whose start, stop and step are left out: they mean the first element, the last and every one, in the trace and in every run |
| `ShapeTracing.SliceToTrt` | src/torch2trt/torch2trt/converters/native_converters.py:659-671 | start, size and stride, in the trace and in every run |
| `ShapeTracing.MakePositive` | src/torch2trt/torch2trt/converters/native_converters.py:752-765 | negative numbers get the size of the axis added; which ones are negative is fixed by the trace |
| `ShapeTracing.LowerSlice` | src/torch2trt/torch2trt/converters/native_converters.py:659-768 | in a run the region the network takes is the one computed from the bounds and the axis of that run, if and only if the numbers have the signs of the trace or the axis is empty |
| `ShapeTracing.FrontSliceFollowsAxis` | src/torch2trt/torch2trt/converters/native_converters.py:659-671 | a slice from the front with its stop absent or on the axis keeps its signs and takes, in every run, the elements the program would take, as many as range(start, stop, step) has |
| `Profile.Shapes` | src/torch2trt/torch2trt/dataset.py:80-90 | the column of shapes of every input over all items |
| `Profile.ExtremeIsAttained` | src/torch2trt/torch2trt/dataset.py:110-114 | a minimum or maximum bounds the column and is one of its entries |
| `Profile.ShapeStats` | src/torch2trt/torch2trt/dataset.py:92-114 | for every input and axis the least or the greatest extent of all items |
| `Profile.NumelIsProduct` | src/torch2trt/torch2trt/dataset.py:116-118 | the number of elements of a shape is the product of its extents |
| `Profile.ItemNumelIsSum` | src/torch2trt/torch2trt/dataset.py:116-118 | that of an item is the sum over its tensors |
| `Profile.MiddleIsMedian` | src/torch2trt/torch2trt/dataset.py:120-123 | more than half of the items have no more elements than the one chosen, and at least half have no fewer |
| `Profile.MedianShapes` | src/torch2trt/torch2trt/dataset.py:120-123 | the typical shapes are those of one actual item |
| `Profile.InferDynamicAxes` | src/torch2trt/torch2trt/torch2trt.py:510-516 | the increasing list of exactly the axes on which the bounds differ |
| `Profile.BuildProfile` | src/torch2trt/torch2trt/torch2trt.py:562-584 | the profile torch2trt computes for a dataset |
| `Profile.ProfileAdmitsItems` | src/torch2trt/torch2trt/dataset.py:110-123 | without a batch size every item lies in the profile, and so do the typical shapes |
| `Profile.AxisIsDynamicIff` | src/torch2trt/torch2trt/torch2trt.py:510-516 | an axis is listed as dynamic if and only if two items differ on it |
| `Profile.BatchProfileAdmitsIff` | src/torch2trt/torch2trt/torch2trt.py:579-582 | with the legacy batch size an item, or the typical shapes, lie in the profile if and only if all their first extents exist and are between one and the batch size |
| `OwlPredictor.MaskKeepsIff` | src/nanoowl/nanoowl/owl_predictor.py:272-286 | for a square with an extent the mask keeps a grid point exactly when its image point lies strictly inside the scaled box |
| `OwlPredictor.ScaledKeepsCentre` | src/nanoowl/nanoowl/owl_predictor.py:274-279 | scaling keeps the centre of a box and multiplies its extents |
| `OwlPredictor.SquareSharesCentre` | src/nanoowl/nanoowl/owl_predictor.py:274-279 | the square has the centre of the box, equal sides, and contains the scaled box |
| `OwlPredictor.SquareContainsBoxIff` | src/nanoowl/nanoowl/owl_predictor.py:274-279 | it contains the box itself if and only if the padding scale is at least one |
| `OwlPredictor.UnitBoxMapsInsideIff` | src/nanoowl/nanoowl/owl_predictor.py:117-122 | a predicted box maps inside its region if and only if its coordinates are unit ones |
| `OwlPredictor.KeptBoxIsInScaledBoxIff` | src/nanoowl/nanoowl/owl_predictor.py:272-286 | a predicted box with both corners kept by the mask is one that maps strictly inside the scaled box of the image |
| `OwlPredictor.Mask` | src/nanoowl/nanoowl/owl_predictor.py:327-336 | the masks of all thresholds joined: a patch is kept exactly when its score passes the threshold of its best label |
| `OwlPredictor.Decode` | src/nanoowl/nanoowl/owl_predictor.py:327-347 | the detections are exactly the patches whose score passes the threshold of their best label, in order, each with the label, score and box of its patch and the image among whose patches it is; labels and input indices are in range, as the tree predictor assumes |
| `OwlPredictor.Forward` | src/nanoowl/nanoowl/owl_predictor.py:445-467 | for every batch size the concatenated outputs are those of all images, the engine never gets more than a batch, and no images at all is an error |
| `Base64.ShiftsAreSums` | src/demos/image_tools/src/burger.cpp:62-65 | joining six-bit values by shifts is the sum used here |
| `Base64.ShiftsAreQuotients` | src/demos/image_tools/src/burger.cpp:66-68 | splitting a block by shifts and masks is division and remainder |
| `Base64.SymbolIsLetter` | src/demos/image_tools/src/burger.cpp:46-57 | the alphabet is the capitals, the small letters, the digits, '+' and '/', in this order |
| `Base64.BitsStay` | src/demos/image_tools/src/burger.cpp:62-68 | four characters of an encoding and the three bytes they stand for are the same 24 bits, most significant first |
| `Base64.TestVectors` | src/demos/image_tools/src/burger.cpp:39-79 | the first test vectors of section 10 of RFC 4648 |
| `Base64.FillTable` | src/demos/image_tools/src/burger.cpp:46-57 | the table has the value of every letter of the alphabet, and zero elsewhere |
| `Base64.DecodeGroup` | src/demos/image_tools/src/burger.cpp:59-68 | one turn of the loop writes its three bytes and changes no other before them |
| `Base64.DecodeGroups` | src/demos/image_tools/src/burger.cpp:58-69 | the loop writes the bytes of all groups, with every index inside the string and the vector |
| `Base64.PopPadding` | src/demos/image_tools/src/burger.cpp:71-78 | takes back the bytes of the padding |
| `Base64.DecodeBase64` | src/demos/image_tools/src/burger.cpp:39-79 | for every text: fewer than two characters leave the vector as it was, a result exists exactly when every turn of the loop stays inside the string and the vector, and it is the function the round trips are about |
| `Base64.TurnsAreInsideIff` | src/demos/image_tools/src/burger.cpp:45-69 | all turns of the loop stay inside the string with its terminator and inside the resized vector if and only if the length is a multiple of four |
| `Base64.DecodeInvertsEncode` | src/demos/image_tools/src/burger.cpp:39-79 | decoding the encoding of section 4 of RFC 4648 of any non-empty byte sequence gives the sequence |
| `Base64.EncodeInvertsDecodeIff` | src/demos/image_tools/src/burger.cpp:39-79 | encoding what was decoded gives the text back if and only if an encoder can produce the text: letters of the alphabet, padding only at the end, unused bits zero |

## Left out

Stated with an assumption or less than the code does:

- FrameSync.SynchronizationIsOptimal: for streams as the extractor delivers them, non-decreasing columns whose longest is unpadded, and real stamps at least the threshold away from the padding; `PaddingMatchesIff` says what happens without the last.
- FrameSync.SynchronizeImages: topics are assumed to have distinct directories and every real stamp its image file, since a rename would otherwise fail or overwrite another topic's image; errors of the file system and the CSV file are not modelled.
- PromptParser.FromPrompt: an index error for a comma outside all brackets is one of the parser's errors here; stripping knows ASCII white space only.
- TreePredictor.DecodeDetectNode: the four dictionaries that are always written together are one map of lists of instances, and encodings are not cached; what the networks return is a parameter, of which only the shapes are assumed.
- TreeDetections.Predict: the text and image encoders, the conversion of images and the two errors for missing encodings, which cannot occur, are not part of the model.
- Extraction.EveryRunKeepsInv: decoding a frame either succeeds or is skipped; exceptions in threads and a failing write are not modelled.
- DetectionText.ControllerRoundTripIff: Python's float is a parameter that is assumed to read printed decimals back and to reject the empty text; exponents, infinities and nan are left to it. Boxes and scores are the decimals that are printed.
- DetectionText.DetectionsCallback: the depth at a point is a parameter, and the position that is computed from it by trigonometry is not modelled.
- FrameSync.LeftoverIff: the directories of the topics hold the images of the real stamps and nothing else before; `DirectoryIsExactIff` is for any files.
- DetectionText.NormalizeKeepsSeparators: white space and lower case are those of ASCII.
- SceneManager.RunMatchesOutcome: the clock readings that follow one tick are taken as one instant, and the default scene mode is indoor or outdoor; with another value the code would fail when it publishes the query.
- NanoOwlNode.Node.LegacyMessage: images, the structured message and the flag that drops images while one is processed are not modelled.
- Tracing.ConversionContext.Wrapper: methods and converters return; an exception would leave the lock held.
- Flattener.FlattenValue: the keys of dictionaries are strings; values that lack a container or a key of the schema, for which the code fails, are excluded.
- Division.LoweredQuotientTruncates: on unbounded integers, one element at a time; the overflow of the network's integers and tensors of floats are not modelled.
- SliceLowering.LoweredSliceIsSliceIff: for bounds from the front; `NegativeBoundsIff` and `UnitSliceIff` treat negative bounds; for bounds of mixed sign with a larger step there is only the general `TakesIff`. Steps are positive, as PyTorch demands.
- ShapeTracing.LowerSlice: one axis of an index; the expansion of an ellipsis, new axes, integer indices and the reshaping layer behind the slice are not modelled. Division by zero at run time is given the value zero.
- Profile.BuildProfile: items of one structure, as the tensor of shapes demands; shapes given by the caller are taken as they are and not modelled, nor is the error for dynamic axes on a DLA.
- Profile.MedianShapes: the order that `argsort` returns is a parameter; any order by number of elements will do.
- OwlPredictor.MaskKeepsIff: real numbers without rounding, for a square with a positive side; sampling inside a region and the predictor without a grid are not modelled. The region of interest code of the CLIP predictor is the same.
- OwlPredictor.Decode: scores and best labels of the patches are parameters.
- Base64.DecodeBase64: for texts of ASCII characters without a terminator inside; other lengths than those of encodings give no result here.

Not modelled at all:

- model weights, TensorRT and CUDA, PyTorch kernels, the OWL and CLIP encoders and the scoring of their outputs;
- ROS publishers, timers, launch files, cameras and drawing; the steering and the candidate selection of the controller, which are arithmetic on floats;
- trees read from dictionaries or JSON, where the operator comes back as a string;
- the remaining converters, each of which maps one call to one layer, and the offsets of split and chunk, which would add easy members;
- datasets kept in files, and the recording of datasets.
