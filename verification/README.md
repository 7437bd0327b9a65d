# Verified model of kexec-loader

kexec-loader is a small boot loader that runs as the init process of a Linux kernel. This project
models its self-contained algorithms and proves what each of them is for. To verify:
`dafny verify dfyconfig.toml`.

| file | what it models |
|---|---|
| `CStrings`, `CBuffers`, `Words`, `Numbers`, `Lines`, `Lists` | C strings, the library calls that scan or edit them in place, `next_value`, `fgets`, the linked lists |
| `Glob` | the wildcard matcher |
| `Modprobe` | the module loader and its recursion over dependencies |
| `Paths`, `Vfs` | path translation with a device root and a jail |
| `TarFormat`, `TarFs`, `Tar`, `TarArchive`, `TarRoundTrip` | the tar extractor: the format, the file system it writes to, its meaning as a function, archives as they are written, the round trip |
| `TarStreams`, `TarSafety`, `TarExtract`, `TarFaults` | the calls it makes with the ways they fail, what the tree may look like meanwhile, the code itself, and the failures it does not notice |
| `Menu` | selection and scrolling |
| `LineEditor`, `Completion` | the command line, its history, and Tab |
| `Cmdline` | options on the kernel command line |
| `GrubDevice` | GRUB device names and the device map |
| `Targets`, `Layouts`, `Config` | `kexec-loader.conf` |
| `Grub2`, `GrubSearch`, `GrubEntries` | `grub.cfg` |

Code that changes state in the original is a method on an array, a linked list or a class here. Its
`ensures` equates the outcome with a specification function, and the lemmas of the table are about
that function. Outside calls are parameters: the kernel's decision on each module, the disks that can
be mounted, the `fread`, `access`, `mkdir`, `fopen`, `fwrite`, `fclose` and `rename` calls that fail or do
only part of their work, and the keys pressed. A `ghost` parameter or field only names the value a buffer stands for.

What the proofs found about the code:

- `globcmp` never misses a match, but it says yes too often: `a` is accepted by `a*b`. The exact
  condition is `Glob.EndsEarly`; the patterns treated right on every string are those whose stars all
  trail (`Glob.RightPatterns`). A string that matches the part of a pattern before some star is not
  enough for a wrong answer: `aba` matches `*a`, and `*a*b` rightly refuses it
  (`Glob.PrefixMatchIsNotEnough`).
- Extracting an archive a second time ends as the first time did and changes nothing but perhaps
  `/tarfile.tmp` (`Tar.ExtractAgain`). It changes nothing at all if and only if no member that was
  completed goes to that path, or the path is taken after the first run (`Tar.ExtractTwice`). A test on
  the names alone that is enough is `Tar.Clear`: no member held whole has a name that leads there.
  `TarRoundTrip.TwiceDiffers` gives an archive for which the second run does make a difference.
- `extract_tar` looks neither at the result of `fclose` nor at why `access` failed. A full disk that
  first shows in the close leaves a truncated file under the member's name (`TarFaults.LostTail`), and
  an `access` that fails on an existing file lets the member overwrite it (`TarFaults.MisreadAccess`).
  Every other failing call is harmless (`TarExtract.ExtractTar`), and what each of the two does to a
  member is stated exactly in `TarFaults.PlacementExact`.
- The checksum of a header is at most 128776: the field itself counts as blanks.
- The menu needs ten console rows, and no fewer will do (`Menu.TenRowsNeeded`).
- `grub-map` in `kexec-loader.conf` is always refused, because its arguments are counted after the
  first one has been cut off (`Config.GrubMapRejected`); README.html documents it as a directive.
- `kmod` is documented as a global directive, but the code wants an open target
  (`Config.KmodNeedsTarget`).
- `parse_gdev` takes `hdmsdos1`, but not `hd0,msdos1`: only the first part may have the prefix
  (`GrubDevice.MsdosOnlyFirst`).
- In a `search` line of `grub.cfg` an abbreviation such as `--l` or `--se` is taken for the option
  (`GrubSearch.AbbreviatedSearch`).

## Model

| member | source | states |
|---|---|---|
| Glob.GlobCmp | src/globcmp.c:59-110 | the greedy loop says yes exactly when the relation holds or the string is used up, by its shortest matching prefix, at some star |
| Glob.MyCmp | src/globcmp.c:32-54 | a segment comparison is character by character matching, and a one-character comparison at the end of the pattern asks for the end of the string |
| Glob.FindSegment | src/globcmp.c:72-79 | the inner loop finds the first place where the segment matches, or there is none |
| Glob.MLeftmost | src/globcmp.c:70-96 | exchange argument: if a star and a segment can match at all, they can with the leftmost place of the segment |
| Glob.GreedyIsRight | src/globcmp.c:59-110 | every match is accepted, and a wrong yes happens if and only if the string is used up at a star that still has an ordinary character after it |
| Glob.ExhaustedMatch | src/globcmp.c:63-68 | a string used up at a star matches exactly when only stars follow |
| Glob.RightPatterns | src/globcmp.c:59-110 | the matcher agrees with the relation on all strings if and only if the stars of the pattern all trail |
| Glob.WrongYes | src/globcmp.c:63-97 | "a" is accepted by "a*b" without matching it |
| Glob.PrefixMatchIsNotEnough | src/globcmp.c:63-97 | "aba" matches "*a", and is neither matched nor accepted by "*a*b" |
| Glob.CharLaw | src/globcmp.c:32-54 | a pattern character stands for itself, for its other case, and `?` and `#` for what their flags allow, and for nothing else |
| Glob.WithoutStars | src/globcmp.c:59-110 | a pattern without active stars is accepted exactly when every character fits |
| Glob.OneStar | src/globcmp.c:63-92 | a star between two pieces matches exactly the strings with a prefix and a suffix that fit them |
| Modprobe.Kernel.InitModule | src/modprobe.c:215-226 | a module is inserted unless the kernel refuses it or has its name; its own decision may differ from call to call |
| Modprobe.FindArgs | src/modprobe.c:177-185 | the arguments are those of the first configured module of that name |
| Modprobe.FindDepends | src/modprobe.c:187-197 | the record scan stops at the first depends= record, and none found means no dependencies |
| Modprobe.LoadDeps | src/modprobe.c:191-213 | dependencies are loaded in order up to the first failure; success leaves all of them loaded; terminates by falling rank, then the bytes left |
| Modprobe.ModprobeEntry | src/modprobe.c:173-227 | with any kernel, everything inserted has its dependencies inserted strictly before it; with one that takes exactly the good images, the result and the set inserted are those of the recursive definition |
| Modprobe.LoadKmod | src/modprobe.c:250-259 | the same for a name, looked up in the two directories; success means the name is loaded, and with a sound kernel it succeeds exactly when the name can be loaded |
| Modprobe.ModprobeDir | src/modprobe.c:296-359 | the same for a directory in whatever order it is read; entries that fail leave the rest justified |
| Modprobe.LoadableIsLeast | src/modprobe.c:173-227 | the modules that can be loaded are the least set closed under "good, and every dependency in the set" |
| Modprobe.TouchedEntryLoads | src/modprobe.c:198-213 | whatever is inserted on the way, also in attempts that fail, can be loaded |
| Modprobe.OneDirectory | src/modprobe.c:296-359 | with one directory, what modprobe_dir adds without a filter is exactly that least set |
| Modprobe.OrderIrrelevant | src/modprobe.c:296-359 | two disks with the same files in any order, and with any ranks and bounds, give the same modules and the same success |
| Modprobe.UsableIs | src/modprobe.c:310-336 | a module file is one whose name ends in .ko and on which stat, open and mmap have worked |
| Modprobe.NameLoadsIff | src/modprobe.c:250-259 | a name can be loaded if and only if the root file system, or a usable boot disk, holds a good module of that name whose dependencies can be |
| Modprobe.FoundOnBootDisk | src/modprobe.c:254-256 | a module on a usable boot disk is found, whatever the root file system holds |
| Modprobe.UnusableBootDisk | src/modprobe.c:254-256 | a boot disk that cannot be used counts as one without modules |
| Modprobe.BootDiskSecond | src/modprobe.c:250-259 | what is added is what the root file system gives, and what the boot disk gives only if nothing asked for could be loaded from there |
| Modprobe.AddedInDir | src/modprobe.c:306-356 | a directory adds what its module files of the name asked for, or all of them, add |
| Modprobe.SomeLoadsIs | src/modprobe.c:303-358 | a directory succeeds exactly when it holds such a file that is good and whose dependencies load |
| Modprobe.AddedByEntry | src/modprobe.c:198-226 | a module adds what its dependencies add, in order up to the first that does not load, and itself if all do |
| Modprobe.FirstArgs | src/modprobe.c:177-185 | the arguments are those of the first directive for the module, over the fields of the list, and empty without one |
| Modprobe.NoDepends | src/modprobe.c:191-195 | a section without a depends= record names no dependencies |
| Modprobe.DepsRoundTrip | src/modprobe.c:191-213 | a .modinfo section written with a list of dependencies is read back as that list |
| Paths.Split | src/vfs.c:67-71 | the strcspn and strspn loop gives the non-empty pieces between slashes |
| Paths.NormalPlain | src/vfs.c:73-82 | the normal form holds no empty component and no ".." |
| Paths.NormalSteps | src/vfs.c:64-87 | a name goes onto the end of the normal form, ".." takes the last one off, unless there is none, and a slash alone does nothing |
| Paths.NormalLeading | src/vfs.c:64-87 | a slash in front makes no difference |
| Vfs.AppendPath | src/vfs.c:64-87 | the in-place loop appends the components of the path, pushed in order and popped on "..", and leaves what was in the buffer before |
| Vfs.PushNode | src/vfs.c:73-78 | strcat of a slash and a node pushes the node |
| Vfs.PopNode | src/vfs.c:79-82 | cutting at the last slash pops the last node |
| Vfs.BuildPath | src/vfs.c:131-142 | in a buffer of exactly the size allocated, every strcat fits and the result is root, normal jail and normal path |
| Vfs.Vfs.SetRoot | src/vfs.c:150-153 | sets or clears the root device and nothing else |
| Vfs.Vfs.SetJail | src/vfs.c:158-161 | sets or clears the jail and nothing else |
| Vfs.Vfs.PickDevice | src/vfs.c:94-115 | the device in brackets or the root, with the path behind it, and the errors for an unclosed bracket and a missing device |
| Vfs.Vfs.TranslatePath | src/vfs.c:94-143 | the translation is the specified one, errors included |
| Vfs.StaysInJail | src/vfs.c:94-143 | for every name the result has root and jail as an untouched prefix, and below them only non-empty names other than "..": the components are those of the root, the jail and the normal path in that order |
| Vfs.InJail | src/vfs.c:94-143 | with a jail, any device that does not waive it is reached inside the jail: the result is the device's root, the normal jail and the normal path |
| Vfs.OutOfJail | src/vfs.c:117-142 | without a jail, or with nojail in front of the device, the result is the device's root and the normal path |
| Vfs.JailedName | src/vfs.c:94-143 | a file at the top of a jail that is one directory of a mounted disk is /mnt/disk/jail/file |
| Vfs.AsksFor | src/vfs.c:99-115 | a name in the form (device)path, or without brackets, asks for that device and path |
| Vfs.NoDevice | src/vfs.c:99-115 | an open bracket without its closing one, and a missing or empty device, are the two errors |
| Vfs.NotMounted | src/vfs.c:126-129 | a device that cannot be mounted is an error, with or without nojail |
| Vfs.DebugDevice | src/vfs.c:117-124 | names on the debug device are taken as they are |
| Vfs.NormalLength | src/vfs.c:131 | a path written out in normal form is at most one slash longer than the path, so that the size allocated is enough |
| Vfs.BufferReached | src/vfs.c:131-140 | the size allocated is reached to the last byte when neither the jail nor the path starts with a slash |
| Vfs.NormalIdempotent | src/vfs.c:64-87 | translating a normal path again changes nothing |
| TarFormat.OctalRoundTrip | src/tar.c:184 | a number written in n octal digits is read back |
| TarFormat.OctalReads | src/tar.c:184 | a field may have blanks and a sign in front of its digits, and a negative number wraps around |
| TarFormat.WrittenChecksumPasses | src/tar.c:234-247 | the sum of any header is at most 128776 and fits six octal digits, and a header with its sum written there passes |
| TarFormat.ChangedByteFails | src/tar.c:234-247 | changing any one byte outside the field makes a passing header fail |
| TarFormat.HeaderRoundTrip | src/tar.c:55-66 | a header written for a name of 1 to 99 bytes and a size below 8^11 is read as that member |
| TarFormat.BareSkipped | src/tar.c:167-174 | a header with a good checksum and a name that ends in a slash, or of a hard link, is skipped |
| TarFormat.BadIsCorrupt | src/tar.c:163-165 | a header whose checksum field holds any number but its sum is corrupt |
| TarFormat.WrittenHeader | src/tar.c:55-66 | the writer given meets the layouts of file, directory and link headers, so that such headers exist |
| TarFs.MkdirsAgain | src/tar.c:249-269 | making the directories of a path again in a later state changes nothing and fails where it failed before, for every path, unless the temporary file stood on the way and is gone |
| Tar.ExtractGrows | src/tar.c:184-227 | extraction keeps the tree a tree, with directories before what is in them, and never changes an existing file |
| Tar.ExtractAgain | src/tar.c:148-232 | for all bytes, truncated and corrupt ones included, and all names, the second run has the outcome of the first and leaves every path but the temporary file's as it was |
| Tar.ExtractTwice | src/tar.c:148-232 | for all bytes and names, extracting twice is extracting once if and only if no completed member goes to the path of the temporary file, or that path is taken at the end of the first run |
| Tar.ClearTwice | src/tar.c:148-232 | in particular it is, on every tree, when no name of a whole member leads to the temporary file |
| Tar.FirstWins | src/tar.c:189-226 | once a member is extracted to any path but the temporary file's, that path holds its contents, or what the path held before, whatever follows in the archive |
| TarArchive.WrittenArchive | src/tar.c:148-232 | the writer given produces an archive of its entries, files and headers without data among them |
| TarArchive.ExtractArchive | src/tar.c:148-232 | an archive of files with directory and link headers among them is read as its files, in order: no data block is taken for a header, and a zero block ends the run well, a bad header, a missing one or a member that is not all there ends it badly, with what came before in place |
| TarArchive.CutStep | src/tar.c:198-218 | a member of which something is missing adds no file |
| TarRoundTrip.RoundTrip | src/tar.c:148-232 | extracting a written archive, with any headers without data between its files, into a tree with room for it creates exactly the written files with exactly their contents, and otherwise only directories on the way to them; so does one that is cut short or has a bad header behind them, which fails |
| TarRoundTrip.CutMember | src/tar.c:198-206 | a last member that is cut off is not installed, and what came before it is there |
| TarRoundTrip.LeadSteps | src/tar.c:176-178 | a member's path goes down by a name, stays at "." and goes up at ".." |
| TarRoundTrip.PlainPlace | src/tar.c:176-178 | without those, a member goes to the components of the destination and then its own |
| TarRoundTrip.NoDirectoriesMade | src/tar.c:180-182 | for a name without a slash no directories are made |
| TarRoundTrip.BlockedMember | src/tar.c:180-226 | a file in the place of a directory ends the run, with no directory made if more should follow below it, and else with the member left in the temporary file |
| TarRoundTrip.TwiceDiffers | src/tar.c:189-226 | with a member named ../tarfile.tmp, extracting twice differs from extracting once |
| TarStreams.Reader.RawRead | src/tar.c:283-304 | a full block is the next 512 bytes, however fread divides them; without faults it is short exactly at the end |
| TarStreams.FileSystem.CheckFile | src/misc.c:873-875 | a file is reported when it exists and the call does not fail; a failure reads as absence |
| TarStreams.FileSystem.WriteTmp | src/tar.c:212 | fwrite hands bytes to a stream that passes them on in its own time |
| TarStreams.FileSystem.CloseTmp | src/tar.c:221 | fclose passes on what the stream holds, or loses the end of it when it fails |
| TarSafety.SafeRename | src/tar.c:220-226 | a rename after a close keeps the tree safe, to the extent that access was right and the close lost nothing |
| TarSafety.NoneHarmed | src/tar.c:184-227 | without those two failures every moment of a run is unharmed: old files as they were, new files whole |
| TarExtract.TestChecksum | src/tar.c:234-247 | the copy-and-sum loop decides the checksum condition |
| TarExtract.TarMkdirs | src/tar.c:249-269 | the recursion makes the directories of a path from the outermost in; every moment on the way is safe |
| TarExtract.CopyBlock | src/tar.c:199-217 | one block is read whole and its part of the member given to the stream, or the run fails |
| TarExtract.CopyBody | src/tar.c:198-218 | the data loop gives exactly the declared bytes to the stream and reads exactly their padded length, or fails |
| TarExtract.WriteBlock | src/tar.c:208-217 | repeated fwrite calls write a block whole, or fail |
| TarExtract.WriteOut | src/tar.c:208-217 | a block goes to the stream if it is open, and is dropped if not |
| TarExtract.BeginMember | src/tar.c:187-196 | access decides whether the temporary file is opened; an access that fails on an existing file opens it too |
| TarExtract.CloseBody | src/tar.c:221 | after the close the file holds the bytes written, or the first of them exactly if some were lost |
| TarExtract.FinishMember | src/tar.c:220-226 | the file is renamed to the member's path with whatever the close left in it |
| TarExtract.PlaceMember | src/tar.c:189-226 | with any failures: safe at each step, and a completed member was seen, or the first bytes of it were renamed to its path; it records a misread access and a lossy close exactly when they happen, and without failures is the specified step |
| TarExtract.ReadHeader | src/tar.c:158-184 | the tests on a header come out as its classification |
| TarExtract.ExtractNext | src/tar.c:148-227 | one turn of the loop keeps every moment safe and, without failures, is one step of the specification |
| TarExtract.ExtractTar | src/tar.c:106-232 | for all bytes and all failing calls, at every moment each path but the temporary file's holds what it held, or is new and a directory or a member; a member is whole unless a close has lost bytes, and a file is replaced only after access has failed on one; without failures the run is the specified one |
| TarFaults.PlacementExact | src/tar.c:189-226 | for one completed member: old files are kept if and only if access was right or the replaced file is the same; the new file is whole if and only if the close lost nothing |
| TarFaults.OnlyMember | src/tar.c:148-184 | an archive of one item holds that member and no other, at no other place |
| TarFaults.OneMemberExact | src/tar.c:189-226 | after the rename of the only member the tree is unharmed if and only if the path has the full contents, or what the file there had before |
| TarFaults.LostTail | src/tar.c:220-226 | a one-byte member whose byte is lost in the close is installed empty, and the tree is harmed |
| TarFaults.MisreadAccess | src/tar.c:189-226 | a file on which access fails is replaced, and the tree is harmed |
| Lists.ListAdd | src/misc.c:569-585 | the node is appended at the end of the chain |
| Lists.ListPrev | src/misc.c:618-630 | the predecessor of a node in the chain, or null for the first |
| Menu.RunInv | src/menu.c:104-129 | after any keys, the index of the target is that of the first row plus the row minus 6, the row is inside the box, row 6 only at the first entry, the last row only on the last entry, and the target is where clamped single steps lead |
| Menu.TenRowsNeeded | src/menu.c:37-59 | the invariant holds on all runs if and only if the console has at least ten rows |
| Menu.EveryEntryReached | src/menu.c:104-129 | every entry can be selected from any start |
| Menu.BootedIs | src/menu.c:130-136 | over any keys, each ENTER boots the entry that clamped single steps lead to, and no other key boots one |
| Menu.FirstDefaultIs | src/menu.c:43-59 | the preselected entry is the first with the default flag, else the first entry |
| Menu.HighlightIsTarget | src/menu.c:209-230 | exactly one line drawn is highlighted, and it shows the selected entry |
| Menu.Menu.constructor | src/menu.c:37-59 | the menu starts in the state of the preselected entry |
| Menu.Menu.SelectDefault | src/menu.c:43-59 | the search loop stops at the first default entry |
| Menu.Menu.MoveTo | src/menu.c:45-53 | moving the target node on, with scrolling, is the same number of steps in the model |
| Menu.Menu.Countdown | src/menu.c:65-94 | the preselected entry is booted exactly when the time runs out with no key in any second, and never a second time |
| Menu.Menu.HandleKey | src/menu.c:107-129 | one key on the linked list is one step of the state machine |
| Menu.Menu.Draw | src/menu.c:209-230 | the rows show the entries from the first row's on |
| Menu.Menu.EventLoop | src/menu.c:104-136 | ENTER boots the entry selected at that moment, over any run of keys |
| Cmdline.StrStr | src/misc.c:302 | the first occurrence from an index on |
| Cmdline.HitIsWordValue | src/misc.c:303-320 | the tests at an occurrence hold exactly when its word is the name or starts with the name and '=' |
| Cmdline.FirstHit | src/misc.c:288-331 | the first occurrence that passes is in the first word that has a value |
| Cmdline.NoHit | src/misc.c:288-331 | no occurrence passes only if no word has a value |
| Cmdline.GetCmdline | src/misc.c:288-331 | the result is the value of the first word that has one, cut to 255 characters, and none exactly when there is no such word |
| Cmdline.LookupWritten | src/misc.c:288-331 | on any line of words, the first word that is the name, or the name and `=` and a value, gives that value, cut to 255 characters |
| Cmdline.LookupUnwritten | src/misc.c:288-331 | a line without such a word gives none |
| GrubDevice.ParseToken | src/grub.c:34-61 | one PARSE_TOKEN, as a step of the parser on values |
| GrubDevice.ParseGdev | src/grub.c:66-88 | the three tokens are the specified parse |
| GrubDevice.ParsePrint | src/grub.c:34-88 | parsing inverts printing, bracketed or not; parts longer than 15 digits come back cut |
| GrubDevice.AcceptsGrammar | src/grub.c:34-88 | a string is accepted if and only if it is a device name of the grammar |
| GrubDevice.MsdosOnlyFirst | src/grub.c:34-61 | a name with msdos in its second part is refused |
| GrubDevice.LookupGdev | src/grub.c:93-139 | the two searches of the linked map give the specified answer |
| GrubDevice.FirstAgreeing | src/grub.c:100-116 | the first entry that agrees on every part given, or none does |
| GrubDevice.FirstWhole | src/grub.c:122-131 | the first entry for the whole disk, or there is none |
| GrubDevice.AbsoluteMatch | src/grub.c:100-116 | the answer is the device of the first entry with the disk and every further part given, for every way to write the name |
| GrubDevice.FloppyByNumber | src/grub.c:133-136 | a floppy drive the map does not hold is fd and its number |
| GrubDevice.NoDevice | src/grub.c:93-139 | without such an entry, a whole disk for a partition number, or a floppy, there is no answer |
| GrubDevice.NotADevice | src/grub.c:96-98 | nor is there one for a string that is no device name |
| GrubDevice.LongText | src/grub.c:46-51 | of a part longer than 15 digits the first 15 are kept |
| GrubDevice.PartitionOfDisk | src/grub.c:118-131 | a partition the map does not hold, of a disk it holds, is the name of the first entry for the whole disk and the number plus one, for every way to write the device and whatever other partitions the map holds |
| GrubDevice.AbsoluteMatchStable | src/grub.c:100-116 | entries added behind never change an answer given by an absolute match |
| Words.NextValue | src/misc.c:334-345 | the buffer is cut behind the first word and the result is where the next one starts |
| Words.SplitWord | src/misc.c:334-345 | a word, blanks and a value are split into the word and the value |
| Lines.FGets | src/misc.c:698 | a line ends behind its newline, at the end of the file, or after 1023 characters |
| Lines.LineEndIs | src/misc.c:698 | the end of a line, exactly: no newline but the last character, and a newline, the end of the text or 1023 characters |
| Numbers.AtoiReads | src/misc.c:715 | atoi skips blanks, takes a sign, and stops at the first character that is no digit |
| Config.CheckArgs | src/misc.c:644-661 | the macro counts words, up to the number asked for |
| Config.GrubMapRejected | src/misc.c:733-745 | counting after the value was split never finds two arguments |
| Config.KmodNeedsTarget | src/misc.c:832-842 | module options are added if and only if a target is open and there is a value |
| Config.RunKmod | src/misc.c:832-842 | with a target open, module options are the first word and the rest of the value |
| Config.LoadAdds | src/misc.c:669-680 | every file only adds targets, behind those there, each with root and kernel |
| Config.PrintedLine | src/misc.c:698-704 | a printed directive is read as its name and value, in any layout |
| Layouts.PrintedRun | src/misc.c:698-704 | for any reader that takes each printed line as its directive, a file of them, read line by line, does what they mean, one after the other |
| Config.PrintedText | src/misc.c:698-844 | load_conf is such a reader: a file of printed directives, comments among them, does what they mean |
| Config.RunTarget | src/misc.c:761-830 | the lines of one target close the one before and set every field, and no other; title and root are cut to 255 characters |
| Config.RunSettings | src/misc.c:709-759 | timeouts, off, the GRUB path and the switch in any case take effect, and values that are none of these, and comments, do not |
| Config.TimeoutNumber | src/misc.c:709-719 | any value of timeout but off is read as a number |
| Config.NoEffect | src/misc.c:704-847 | unknown directives, missing values, grub-map, and target directives outside a target do nothing |
| Config.LineCut | src/misc.c:699 | a carriage return or NUL ends the line, whatever follows |
| Config.RoundTrip | src/misc.c:683-855 | a file of settings and targets, printed with any indentation, blanks and DOS or UNIX line ends, sets exactly those settings and appends, in order, exactly the targets that have a root and a kernel |
| Config.Loader.AddTarget | src/misc.c:669-680 | a target is added exactly when it has root and kernel |
| Config.Loader.GlobalDirective | src/misc.c:709-773 | the global directives and title |
| Config.Loader.TargetDirective | src/misc.c:774-842 | the directives of a target are obeyed only when one is open |
| Config.Loader.ReadLine | src/misc.c:699-844 | one turn of the loop, on the buffer, is one step of the specification |
| Config.Loader.LoadConf | src/misc.c:683-855 | the whole run is the specified one, for every text |
| Grub2.Grub2Val | src/grub.c:338-360 | a quoted value ends at the same quote, a bare one at a blank or '='; both parts stay in the buffer, and only a missing quote is an error |
| Grub2.SearchArgs | src/grub.c:498-536 | the search loop, as a recursion over the text |
| GrubSearch.SearchWords | src/grub.c:498-536 | on the text of any list of words, with --set=x written as one or two words, the loop finds what the words mean, and stops at the last one |
| GrubSearch.UuidSearch | src/grub.c:482-558 | the line grub-mkconfig writes, with any hints, sets root to the file system of that identifier |
| GrubSearch.AbbreviatedSearch | src/grub.c:516-531 | options cut short, down to their first letter, set root like the whole ones |
| GrubSearch.SelectingWords | src/grub.c:518-523 | the options and which of two an abbreviation counts for |
| GrubSearch.MeaningHow | src/grub.c:518-523 | the kind of name is that of the last option for it, and else that of the command |
| GrubSearch.MeaningSet | src/grub.c:524-529 | root is set if and only if --set is followed, at once or later, by root or by a last word that is no option |
| GrubSearch.SearchWritten | src/grub.c:482-558 | a search command over any words sets root to its last word, as a label or an identifier, or not at all |
| GrubSearch.TaggedSearch | src/grub.c:490-496 | search.fs_uuid and search.fs_label need no option for the kind; search.file and a plain search set nothing without |
| Grub2.RunAdds | src/grub.c:412-431 | every file only adds targets, behind those there, each with root and kernel |
| Grub2.RunFront | src/grub.c:379-561 | text behind text that ends its last line is read from the state the first one left |
| Grub2.RunAlike | src/grub.c:379-561 | a run does not depend on the targets already there, nor, between entries, on the skip flag |
| Grub2.BraceCloses | src/grub.c:412-431 | the closing line leaves a fresh target, with only default, number and timeout carried over |
| Grub2.Compose | src/grub.c:362-569 | a file of two blocks, the first ending with the brace of an open entry, gives the targets of the first and then those of the second run from a fresh target with default, number and timeout |
| Grub2.RunPlain | src/grub.c:397-431 | what is carried over between entries decides only which targets are marked default |
| Grub2.NoLeak | src/grub.c:362-569 | behind a closed entry a text gives the targets it gives alone, but for the default mark: no field leaks |
| Grub2.Loader.OpenEntry | src/grub.c:397-411 | menuentry |
| Grub2.Loader.EndEntry | src/grub.c:412-431 | a closed entry is added exactly when it is not skipped and has root and kernel, and the target starts afresh |
| Grub2.Loader.Set | src/grub.c:435-464 | set root, default and timeout |
| Grub2.Loader.SetKernel | src/grub.c:465-473 | linux: the kernel and the rest of the line |
| Grub2.Loader.SetInitrd | src/grub.c:474-481 | initrd |
| Grub2.Loader.SearchDevice | src/grub.c:482-558 | search: the root is set exactly when it was asked for, by label or identifier |
| Grub2.Loader.ReadLine | src/grub.c:379-560 | one turn of the loop, on the buffer, is one step of the specification |
| Grub2.Loader.LoadGrub2Cfg | src/grub.c:362-569 | the whole run is the specified one, for every text, also when a missing quote ends it |
| GrubEntries.PrintedText | src/grub.c:379-560 | a file of printed commands does what they mean, up to a missing quote |
| GrubEntries.ValQuoted | src/grub.c:338-360 | a value in either kind of quotes is read to the closing one, and the rest starts behind any run of blanks and `=` |
| GrubEntries.ValBare | src/grub.c:338-360 | so is a bare value, up to the first blank or `=` |
| GrubEntries.MissingQuote | src/grub.c:339-342 | a missing quote stops every command that reads a value |
| GrubEntries.QuoteEndsFile | src/grub.c:379-561 | whatever follows a missing quote, the targets are those in front of it |
| GrubEntries.NoEffect | src/grub.c:385-560 | comments, unknown commands and a brace that closes no entry do nothing |
| GrubEntries.RunOther | src/grub.c:435-464 | a default in a submenu is none, an empty one is the first entry, and other variables do nothing |
| GrubEntries.RunTimeout | src/grub.c:461-463 | a timeout counts only while there is none |
| GrubEntries.LineCut | src/grub.c:382-383 | carriage returns in front of a line are skipped, and NUL ends it |
| GrubEntries.RunEntry | src/grub.c:397-533 | a printed entry, with either spelling of linux and initrd and a root by name, identifier or label, adds one target with every field as written; one that chainloads, or lacks root or kernel, adds none |
| GrubEntries.RoundTrip | src/grub.c:362-569 | a printed file of entries, with a timeout and a default in front, gives one target for each entry that has one, in order, exactly the default, by number or by title, is marked, and the timeout is taken if there was none |
| LineEditor.RunInv | src/shell.c:219-353 | after any keys the text is at most 1022 characters without NUL, and the history index is -1 or inside the history |
| LineEditor.UpThenDown | src/shell.c:267-287 | from a recalled entry with an older one behind it, after any keys, Up and Down come back to that entry |
| LineEditor.UpReaches | src/shell.c:267-274 | n times Up shows the n-th newest entry, or stays at the oldest |
| LineEditor.EraseLaws | src/shell.c:231-264 | Delete is Right and Backspace, and Backspace takes back a character |
| LineEditor.MoveLaws | src/shell.c:243-248 | Left and Right undo each other |
| LineEditor.HomeEnd | src/shell.c:249-254 | Home and End are Left and Right as often as they can be pressed |
| LineEditor.EdgeKeys | src/shell.c:231-287 | keys do nothing at the ends of the line and of the history and on a full line, and Down from the newest entry clears the line |
| LineEditor.DropsSpaces | src/shell.c:355-356 | leading spaces are dropped, and nothing else |
| LineEditor.EveryLineReached | src/shell.c:219-353 | every text of up to 1022 characters can be entered, with the cursor at every place |
| LineEditor.SessionHistory | src/shell.c:356-365 | after any session the history is the last 32 non-blank lines, newest first and without a gap |
| LineEditor.Editor.TextHeld | src/shell.c:219-353 | the first NUL of the buffer is at cmdlen, with two bytes to spare, and the cursor is inside |
| LineEditor.Editor.EraseBack | src/shell.c:231-242 | the memmove of Backspace is the edit on the pair of strings |
| LineEditor.Editor.EraseForward | src/shell.c:255-266 | the memmove of Delete, which copies a byte past the terminator, stays in the buffer and is the edit |
| LineEditor.Editor.InsertChar | src/shell.c:342-350 | the memmove of a character is the edit, and a full line stays as it is |
| LineEditor.Editor.MoveCursor | src/shell.c:243-254 | the cursor keys move characters from one string of the pair to the other |
| LineEditor.Editor.Recall | src/shell.c:267-287 | Up and Down copy the entry of the history, or clear the line |
| LineEditor.Editor.HandleKey | src/shell.c:225-351 | every key but Tab and Enter is one step of the editor on strings |
| LineEditor.Push | src/shell.c:358-364 | the shifting loop puts the line in front and forgets the oldest of 32 |
| LineEditor.ReadCmd | src/shell.c:219-368 | over any keys, the line returned is the text without leading blanks, and the history gets the text unless it is blank |
| Completion.KlStrins | src/misc.c:509-532 | in all three branches the buffer holds exactly the first size-1 characters of prefix, insertion and suffix |
| Completion.InsertKeeping | src/misc.c:520-529 | the memmove and strncpy of the last two branches put the text in front of the characters that are kept |
| Completion.MatchLen | src/misc.c:556-564 | the length of the longest common prefix of two strings |
| Completion.LongestSnoc | src/shell.c:292-295 | the longest prefix common to all is the minimum over neighbours |
| Completion.CommonLength | src/shell.c:288-301 | the loop finds the length of the longest prefix common to all candidates |
| Completion.Complete | src/shell.c:288-321 | Tab inserts exactly that prefix at the cursor, as far as it fits, and moves the cursor behind it |

## Left out

- Mounting, disk discovery, starting kernels, reboot and `main`: system calls. A device name is mapped to a mounted disk by a function parameter.
- Drawing, cursor addressing and the decoding of key sequences in src/console.c: they depend on the terminal. `draw_menu` is modelled as rows with titles.
- src/keymap.c, src/trace.c, `debug` and the error messages: only easy properties.
- gzip and LZMA archives: foreign libraries. The reader of plain files is modelled.
- `menu.lst` and `device.map`: line parsers of the same kind as `grub.cfg`, over members already modelled.
- `ac_search` and directory listing: the candidates for Tab are a parameter.
- `list_del`: it does not end on nodes past the second.
- ELF section lookup and byte order: the loader is given the .modinfo section, which may be empty.
- Tar.FirstWins: does not speak of a member that goes to `/tarfile.tmp` itself, because the next member takes that file away.
- TarExtract.ExtractTar: does not model headers whose name is empty or has 100 bytes, or whose numbers have no terminator, because the source reads past the field; the model stops there. Each member's path has to fit its buffer of 128 bytes, or of 256 if it needs no directories. The file system has no links. `Extract` takes the bytes of a stream that a failed run leaves open as written (`TarStreams.FileSystem.Settled`); until then the temporary file may hold fewer. A close is taken to lose only bytes still in the stream.
- TarFormat.WrittenChecksumPasses: unsigned long is taken to have 64 bits.
- Modprobe.LoadDeps: sections with an unterminated last record and dependency names over 255 characters are excluded (`Modprobe.WellFormed`), because the source reads or writes past the end on them.
- Modprobe.LoadKmod: does not say that everything in both directories is loaded without a filter, because the code leaves the second one out once the first has given something. Dependency cycles are excluded: the source recurses without end on them.
- Modprobe.Kernel.InitModule: takes the name the kernel knows a module by to be that of its file; the kernel goes by the name inside the module, which differs for one file name with `-` and another with `_`.
- Vfs.Vfs.TranslatePath: a device name in closed brackets has to fit its 32-byte buffer.
- GrubDevice.LookupGdev: numbers are unbounded here, and an int in the source; from 2147483647 on, adding one overflows there.
- Cmdline.GetCmdline: names are not empty and hold no space or newline, and the line holds no NUL; for other names words and occurrences are different things.
- Menu.Menu.HandleKey: consoles with fewer than ten rows are excluded, where the scrolling does not work; the keys for disks and the shell are not modelled.
- LineEditor.Editor.HandleKey: Tab is a method of its own, Completion.Complete. After Tab has filled the buffer to the last byte, Delete would copy a byte from behind it.
- LineEditor.ReadCmd: does not take Tab, for the same reason.
- Completion.KlStrins: the result counts from the place of insertion on, which is what the code computes; its comment speaks of the whole string.
- Config.Loader.LoadConf: the timeout is unbounded here, and an int in the source. Files that cannot be opened or read are left out; the code behind the argument test of `grub-map` cannot be reached.
- Grub2.Loader.LoadGrub2Cfg: timeouts and default numbers are unbounded here, and ints in the source. Files that cannot be opened or read are left out.
